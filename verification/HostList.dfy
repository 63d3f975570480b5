/** The listing of hosts: one item per host, gathered concurrently, sorted by name in place. */
module HostList {
  import opened FanIn
  import opened Permutations
  import opened Text

  /** A line of the listing; `detail` stands for the fields that play no part here. */
  datatype Item = Item(name: string, driver: string, state: string, detail: string)

  datatype Host = Host(name: string, driver: string)


  /** newHostListItemInError: the error's text on one line. */
  function ErrorItem(name: string, err: string): Item { Item(name, "not found", "Error", ReplaceAll(err, "\n", "")) }

  /** What goroutine `i` may produce: any item with the name of its host, be it an answer or the
      item of the timeout. */
  predicate Honest(hosts: seq<Host>, step: Step<Item>) {
    step.Produce? ==> step.i < |hosts| && step.value.name == hosts[step.i].name
  }

  /** A run of the goroutines for these hosts and their collector, up to its end. */
  predicate Completes(hosts: seq<Host>, steps: seq<Step<Item>>) {
    && IsRun(Init(|hosts|), steps) && Outcome(Init(|hosts|), steps).closed
    && forall i :: 0 <= i < |steps| ==> Honest(hosts, steps[i])
  }

  // ----- one item per host

  ghost predicate NamesMatch(hosts: seq<Host>, s: State<Item>) {
    && |s.workers| == |hosts|
    && forall i :: 0 <= i < |hosts| && !s.workers[i].Working? ==> s.workers[i].value.name == hosts[i].name
  }

  lemma {:induction false} RunsKeepNames(hosts: seq<Host>, s: State<Item>, steps: seq<Step<Item>>)
    requires NamesMatch(hosts, s) && IsRun(s, steps)
    requires forall i :: 0 <= i < |steps| ==> Honest(hosts, steps[i])
    ensures NamesMatch(hosts, Outcome(s, steps))
    decreases |steps|
  {
    if steps != [] {
      assert Honest(hosts, steps[0]);
      RunsKeepNames(hosts, Next(s, steps[0]), steps[1..]);
    }
  }

  function Names(items: seq<Item>): seq<string> { Image((x: Item) => x.name, items) }
  function HostNames(hosts: seq<Host>): seq<string> { Image((h: Host) => h.name, hosts) }

  lemma NamesOfPermutation(a: seq<Item>, b: seq<Item>)
    requires multiset(a) == multiset(b)
    ensures multiset(Names(a)) == multiset(Names(b))
  {
    ImageOfPermutation((x: Item) => x.name, a, b);
  }

  lemma NamesConcat(a: seq<Item>, b: seq<Item>)
    ensures Names(a + b) == Names(a) + Names(b)
  {
  }

  lemma NamesReceived(hosts: seq<Host>, t: State<Item>)
    requires NamesMatch(hosts, t) && forall i :: 0 <= i < |t.workers| ==> t.workers[i].Sent?
    requires multiset(t.received) == multiset(Values(t.workers))
    ensures multiset(Names(t.received)) == multiset(HostNames(hosts))
  {
    NamesOfPermutation(t.received, Values(t.workers));
    assert Names(Values(t.workers)) == HostNames(hosts);
  }

  /** Whatever the interleaving and whichever hosts time out, the collected items are one for
      each host. */
  lemma OneItemPerHost(hosts: seq<Host>, steps: seq<Step<Item>>)
    requires Completes(hosts, steps)
    ensures multiset(Names(Outcome(Init(|hosts|), steps).received)) == multiset(HostNames(hosts))
  {
    var t := Outcome(Init(|hosts|), steps);
    InitHolds<Item>(|hosts|);
    RunsCollectOnce(Init(|hosts|), steps);
    RunsKeepNames(hosts, Init(|hosts|), steps);
    NamesReceived(hosts, t);
  }

  // ----- sorting

  /** strings.ToLower and sort.Sort over the natural order */
  datatype Library = Library(lower: string -> string, sort: seq<string> -> seq<string>) {
    ghost predicate Permutes() { forall s :: multiset(sort(s)) == multiset(s) }
    function Key(x: Item): string { lower(x.name) }
    function Keys(items: seq<Item>): seq<string> { Image((x: Item) => Key(x), items) }

    /** The last item with key `k`. */
    function Last(items: seq<Item>, k: string): Item
      requires k in Keys(items)
    {
      var x := items[|items| - 1];
      if Key(x) == k then x
      else
        assert Keys(items) == Keys(items[..|items| - 1]) + [Key(x)];
        Last(items[..|items| - 1], k)
    }

    /** What sortHostListItemsByName makes of the items. */
    ghost function Sorted(items: seq<Item>): seq<Item>
      requires Permutes()
    {
      var s := sort(Keys(items));
      seq(|s|, i requires 0 <= i < |s| => InKeys(items, s, i); Last(items, s[i]))
    }

    lemma InKeys(items: seq<Item>, s: seq<string>, i: nat)
      requires multiset(s) == multiset(Keys(items)) && i < |s|
      ensures s[i] in Keys(items)
    {
      assert s[i] in multiset(s);
    }
  }

  /** sortHostListItemsByName */
  method SortHostListItemsByName(items: array<Item>, lib: Library)
    requires lib.Permutes()
    modifies items
    ensures items[..] == lib.Sorted(old(items[..]))
  {
    var m: map<string, Item> := map[];
    var s := [];
    ghost var was := items[..];
    for i := 0 to items.Length
      invariant items[..] == was
      invariant s == lib.Keys(was[..i])
      invariant m.Keys == set k | k in s
      invariant forall k :: k in m ==> m[k] == lib.Last(was[..i], k)
    {
      var name := lib.lower(items[i].name);
      assert was[..i + 1][..i] == was[..i];
      m := m[name := items[i]];
      s := s + [name];
    }
    assert was[..items.Length] == was;
    s := lib.sort(s);
    assert |s| == |multiset(s)| == |multiset(lib.Keys(was))| == items.Length;
    forall i | 0 <= i < |s| ensures s[i] in m {
      lib.InKeys(was, s, i);
    }
    for i := 0 to items.Length
      invariant items[..i] == lib.Sorted(was)[..i]
    {
      items[i] := m[s[i]];
    }
  }

  // ----- when the sorted listing is a permutation of the items

  /** Items that differ have names that differ, even in lower case. */
  ghost predicate NoClash(lib: Library, items: seq<Item>) {
    forall x, y :: x in items && y in items && lib.Key(x) == lib.Key(y) ==> x == y
  }

  lemma {:induction false} LastIsThere(lib: Library, items: seq<Item>, k: string)
    requires k in lib.Keys(items)
    ensures lib.Last(items, k) in items && lib.Key(lib.Last(items, k)) == k
  {
    var n := |items| - 1;
    if lib.Key(items[n]) != k {
      assert lib.Keys(items) == lib.Keys(items[..n]) + [lib.Key(items[n])];
      LastIsThere(lib, items[..n], k);
    }
  }

  /** An item occurs at most as often as its key; as often only if nothing else has the key. */
  lemma {:induction false} ItemsAndKeys(lib: Library, items: seq<Item>, x: Item)
    ensures multiset(items)[x] <= multiset(lib.Keys(items))[lib.Key(x)]
    ensures multiset(items)[x] == multiset(lib.Keys(items))[lib.Key(x)]
            <==> forall y :: y in items && lib.Key(y) == lib.Key(x) ==> y == x
  {
    var n := |items| - 1;
    if items != [] {
      ItemsAndKeys(lib, items[..n], x);
      assert items == items[..n] + [items[n]];
      assert lib.Keys(items) == lib.Keys(items[..n]) + [lib.Key(items[n])];
    }
  }

  lemma CountedOnce<T>(s: seq<T>, x: T)
    requires s != []
    ensures multiset(s)[x] == multiset(s[..|s| - 1])[x] + if s[|s| - 1] == x then 1 else 0
  {
    assert s == s[..|s| - 1] + [s[|s| - 1]];
  }

  /** In the sorted listing, the last item with a key stands for all items with that key. */
  lemma {:induction false} CountInListing(lib: Library, items: seq<Item>, s: seq<string>, r: seq<Item>, k: string)
    requires forall i :: 0 <= i < |s| ==> s[i] in lib.Keys(items)
    requires |r| == |s| && forall i :: 0 <= i < |s| ==> r[i] == lib.Last(items, s[i])
    requires k in lib.Keys(items)
    ensures multiset(r)[lib.Last(items, k)] == multiset(s)[k]
    decreases |s|
  {
    var n := |s| - 1;
    if s != [] {
      CountInListing(lib, items, s[..n], r[..n], k);
      LastIsThere(lib, items, s[n]);
      LastIsThere(lib, items, k);
      CountedOnce(s, k);
      CountedOnce(r, lib.Last(items, k));
    }
  }

  lemma CountInSorted(lib: Library, items: seq<Item>, k: string)
    requires lib.Permutes() && k in lib.Keys(items)
    ensures multiset(lib.Sorted(items))[lib.Last(items, k)] == multiset(lib.Keys(items))[k]
  {
    var s := lib.sort(lib.Keys(items));
    forall i | 0 <= i < |s| ensures s[i] in lib.Keys(items) { lib.InKeys(items, s, i); }
    CountInListing(lib, items, s, lib.Sorted(items), k);
  }

  lemma SortedComesFromItems(lib: Library, items: seq<Item>, x: Item)
    requires lib.Permutes() && x in lib.Sorted(items)
    ensures x in items
  {
    var s := lib.sort(lib.Keys(items));
    var i :| 0 <= i < |s| && lib.Sorted(items)[i] == x;
    lib.InKeys(items, s, i);
    LastIsThere(lib, items, s[i]);
  }

  lemma KeyOfMember(lib: Library, items: seq<Item>, x: Item)
    requires x in items
    ensures lib.Key(x) in lib.Keys(items)
  {
    var i :| 0 <= i < |items| && items[i] == x;
    assert lib.Keys(items)[i] == lib.Key(x);
  }

  /** Exactly when sorting by name loses no item: when no two different items have the same
      name up to case.  Otherwise one of them is shown in the place of the others. */
  lemma SortingLosesNothingExactly(lib: Library, items: seq<Item>)
    requires lib.Permutes()
    ensures multiset(lib.Sorted(items)) == multiset(items) <==> NoClash(lib, items)
  {
    if multiset(lib.Sorted(items)) == multiset(items) {
      forall x, y | x in items && y in items && lib.Key(x) == lib.Key(y) ensures x == y {
        var k := lib.Key(x);
        KeyOfMember(lib, items, x);
        CountInSorted(lib, items, k);
        LastIsThere(lib, items, k);
        ItemsAndKeys(lib, items, lib.Last(items, k));
      }
    }
    if NoClash(lib, items) {
      forall x: Item ensures multiset(lib.Sorted(items))[x] == multiset(items)[x] {
        if x in items {
          var k := lib.Key(x);
          KeyOfMember(lib, items, x);
          CountInSorted(lib, items, k);
          LastIsThere(lib, items, k);
          ItemsAndKeys(lib, items, x);
        } else if x in lib.Sorted(items) {
          SortedComesFromItems(lib, items, x);
        }
      }
    }
  }

  /** The order in which the items arrived makes no difference to the listing. */
  lemma ArrivalOrderIsIrrelevant(lib: Library, less: (string, string) -> bool, a: seq<Item>, b: seq<Item>)
    requires lib.Permutes() && StrictTotalOrder(less) && forall s :: SortedBy(less, lib.sort(s))
    requires multiset(a) == multiset(b) && NoClash(lib, a)
    ensures lib.Sorted(a) == lib.Sorted(b)
  {
    ImageOfPermutation((x: Item) => lib.Key(x), a, b);
    var s := lib.sort(lib.Keys(a));
    SortedIsUnique(less, s, lib.sort(lib.Keys(b)));
    forall i | 0 <= i < |s| ensures lib.Sorted(a)[i] == lib.Sorted(b)[i] {
      lib.InKeys(a, s, i);
      lib.InKeys(b, s, i);
      LastIsThere(lib, a, s[i]);
      LastIsThere(lib, b, s[i]);
      assert lib.Last(b, s[i]) in multiset(b);
    }
  }

  // ----- the whole listing

  function ErrorItems(order: seq<string>, errs: map<string, string>): (r: seq<Item>)
    requires forall k :: k in order ==> k in errs
    ensures Names(r) == order
  {
    seq(|order|, i requires 0 <= i < |order| => ErrorItem(order[i], errs[order[i]]))
  }

  /** getHostListItems, from the items received on */
  method GetHostListItems(received: seq<Item>, errs: map<string, string>, order: seq<string>, lib: Library)
      returns (items: array<Item>)
    requires lib.Permutes() && Enumerates(order, errs)
    ensures items[..] == lib.Sorted(received + ErrorItems(order, errs))
  {
    var list := received;
    for i := 0 to |order|
      invariant list == received + ErrorItems(order, errs)[..i]
    {
      list := list + [ErrorItem(order[i], errs[order[i]])];
    }
    items := new Item[|list|](i requires 0 <= i < |list| => list[i]);
    assert items[..] == list == received + ErrorItems(order, errs);
    SortHostListItemsByName(items, lib);
  }

  /** Any two of these names that are equal in lower case are equal. */
  ghost predicate NoCaseClash(lib: Library, names: seq<string>) {
    forall a, b :: a in names && b in names && lib.lower(a) == lib.lower(b) ==> a == b
  }

  // An item with nothing but its name, which is all that the order and the keys look at.
  function Named(name: string): Item { Item(name, "", "", "") }
  function Bare(items: seq<Item>): seq<Item> { Image((n: string) => Named(n), Names(items)) }

  lemma BareKeys(lib: Library, items: seq<Item>)
    ensures lib.Keys(Bare(items)) == lib.Keys(items)
  {
  }

  lemma {:induction false} BareLast(lib: Library, items: seq<Item>, k: string)
    requires k in lib.Keys(items)
    ensures k in lib.Keys(Bare(items)) && lib.Last(Bare(items), k) == Named(lib.Last(items, k).name)
  {
    BareKeys(lib, items);
    var n := |items| - 1;
    if lib.Key(items[n]) != k {
      assert lib.Keys(items) == lib.Keys(items[..n]) + [lib.Key(items[n])];
      assert Bare(items)[..n] == Bare(items[..n]);
      BareLast(lib, items[..n], k);
    }
  }

  lemma BareSorted(lib: Library, items: seq<Item>)
    requires lib.Permutes()
    ensures lib.Sorted(Bare(items)) == Bare(lib.Sorted(items))
  {
    BareKeys(lib, items);
    var s := lib.sort(lib.Keys(items));
    forall i | 0 <= i < |s| ensures lib.Sorted(Bare(items))[i] == Bare(lib.Sorted(items))[i] {
      lib.InKeys(items, s, i);
      BareLast(lib, items, s[i]);
    }
  }

  lemma BareKnowsNames(a: seq<Item>, b: seq<Item>)
    ensures multiset(Names(a)) == multiset(Names(b)) <==> multiset(Bare(a)) == multiset(Bare(b))
  {
    if multiset(Names(a)) == multiset(Names(b)) {
      ImageOfPermutation((n: string) => Named(n), Names(a), Names(b));
    }
    if multiset(Bare(a)) == multiset(Bare(b)) {
      NamesOfPermutation(Bare(a), Bare(b));
      assert Names(Bare(a)) == Names(a) && Names(Bare(b)) == Names(b);
    }
  }

  lemma BareClash(lib: Library, items: seq<Item>)
    ensures NoClash(lib, Bare(items)) <==> NoCaseClash(lib, Names(items))
  {
    var names := Names(items);
    if NoClash(lib, Bare(items)) {
      forall a, b | a in names && b in names && lib.lower(a) == lib.lower(b) ensures a == b {
        var i :| 0 <= i < |names| && names[i] == a;
        var j :| 0 <= j < |names| && names[j] == b;
        assert Bare(items)[i] == Named(a) && Bare(items)[j] == Named(b);
        assert lib.Key(Named(a)) == lib.Key(Named(b));
      }
    }
    if NoCaseClash(lib, names) {
      forall x, y | x in Bare(items) && y in Bare(items) && lib.Key(x) == lib.Key(y) ensures x == y {
        var i :| 0 <= i < |names| && Bare(items)[i] == x;
        var j :| 0 <= j < |names| && Bare(items)[j] == y;
        assert names[i] in names && names[j] in names;
      }
    }
  }

  /** Sorting keeps the names if and only if no two of them differ in case only. */
  lemma SortingKeepsNamesExactly(lib: Library, items: seq<Item>)
    requires lib.Permutes()
    ensures multiset(Names(lib.Sorted(items))) == multiset(Names(items)) <==> NoCaseClash(lib, Names(items))
  {
    BareSorted(lib, items);
    BareKnowsNames(lib.Sorted(items), items);
    SortingLosesNothingExactly(lib, Bare(items));
    BareClash(lib, items);
  }

  lemma CaseClashOfPermutation(lib: Library, a: seq<string>, b: seq<string>)
    requires multiset(a) == multiset(b)
    ensures NoCaseClash(lib, a) <==> NoCaseClash(lib, b)
  {
    assert forall x :: x in a <==> x in multiset(a);
    assert forall x :: x in b <==> x in multiset(b);
  }

  /** The items that a run and the map of hosts in error give. */
  function Gathered(hosts: seq<Host>, steps: seq<Step<Item>>, errs: map<string, string>, order: seq<string>): seq<Item>
    requires Completes(hosts, steps) && forall k :: k in order ==> k in errs
  {
    Outcome(Init(|hosts|), steps).received + ErrorItems(order, errs)
  }

  lemma GatheredNames(hosts: seq<Host>, steps: seq<Step<Item>>, errs: map<string, string>, order: seq<string>)
    requires Completes(hosts, steps) && forall k :: k in order ==> k in errs
    ensures multiset(Names(Gathered(hosts, steps, errs, order))) == multiset(HostNames(hosts) + order)
  {
    OneItemPerHost(hosts, steps);
    NamesConcat(Outcome(Init(|hosts|), steps).received, ErrorItems(order, errs));
  }

  /** Whatever the interleaving, the timeouts and the order of the map, the listing shows every
      loaded host and every host in error exactly once if and only if no two of their names
      differ in case only. */
  lemma ListingIsComplete(hosts: seq<Host>, steps: seq<Step<Item>>, errs: map<string, string>, order: seq<string>,
                          lib: Library)
    requires Completes(hosts, steps) && lib.Permutes() && Enumerates(order, errs)
    ensures multiset(Names(lib.Sorted(Gathered(hosts, steps, errs, order)))) == multiset(HostNames(hosts) + order)
            <==> NoCaseClash(lib, HostNames(hosts) + order)
  {
    var items := Gathered(hosts, steps, errs, order);
    GatheredNames(hosts, steps, errs, order);
    SortingKeepsNamesExactly(lib, items);
    CaseClashOfPermutation(lib, Names(items), HostNames(hosts) + order);
  }

  // ----- the order of arrival

  /** An item's key is found among the sorted keys, and there the last item with the key is shown. */
  lemma ShownAt(lib: Library, items: seq<Item>, k: string) returns (m: nat)
    requires lib.Permutes() && k in lib.Keys(items)
    ensures m < |lib.sort(lib.Keys(items))| && lib.sort(lib.Keys(items))[m] == k
    ensures m < |lib.Sorted(items)| && lib.Sorted(items)[m] == lib.Last(items, k)
  {
    var s := lib.sort(lib.Keys(items));
    assert k in multiset(s);
    m :| 0 <= m < |s| && s[m] == k;
  }

  /** The same items with `x` last. */
  lemma Moved(a: seq<Item>, x: Item) returns (b: seq<Item>)
    requires x in a
    ensures b != [] && b[|b| - 1] == x && multiset(b) == multiset(a)
  {
    var i :| 0 <= i < |a| && a[i] == x;
    b := a[..i] + a[i + 1..] + [x];
    assert a == a[..i] + [x] + a[i + 1..];
  }

  lemma KeysConcat(lib: Library, a: seq<Item>, b: seq<Item>)
    ensures lib.Keys(a + b) == lib.Keys(a) + lib.Keys(b)
  {
  }

  lemma LastOneMore(lib: Library, items: seq<Item>, x: Item, k: string)
    requires k in lib.Keys(items) || lib.Key(x) == k
    ensures k in lib.Keys(items + [x])
    ensures lib.Last(items + [x], k) == if lib.Key(x) == k then x else lib.Last(items, k)
  {
    KeysConcat(lib, items, [x]);
    assert lib.Keys([x]) == [lib.Key(x)];
    assert (items + [x])[..|items|] == items;
  }

  /** Later items hide earlier ones with the same key. */
  lemma {:induction false} LastOfBoth(lib: Library, r: seq<Item>, e: seq<Item>, k: string)
    requires k in lib.Keys(r) || k in lib.Keys(e)
    ensures k in lib.Keys(r + e)
    ensures lib.Last(r + e, k) == if k in lib.Keys(e) then lib.Last(e, k) else lib.Last(r, k)
    decreases |e|
  {
    if e == [] {
      assert r + e == r;
    } else {
      var front, x := e[..|e| - 1], e[|e| - 1];
      assert e == front + [x] && r + e == (r + front) + [x];
      KeysConcat(lib, front, [x]);
      assert lib.Keys([x]) == [lib.Key(x)];
      if lib.Key(x) != k {
        LastOfBoth(lib, r, front, k);
        if k in lib.Keys(front) { LastOneMore(lib, front, x, k); }
      } else {
        LastOneMore(lib, front, x, k);
      }
      LastOneMore(lib, r + front, x, k);
    }
  }

  /** No two different errors have the same key, and no two different items whose key no error has. */
  ghost predicate Settled(lib: Library, r: seq<Item>, e: seq<Item>) {
    && NoClash(lib, e)
    && forall x, y :: x in r && y in r && lib.Key(x) == lib.Key(y) && lib.Key(x) !in lib.Keys(e) ==> x == y
  }

  ghost predicate SameItems(a: seq<Item>, b: seq<Item>) { multiset(a) == multiset(b) }

  lemma SameLast(lib: Library, r: seq<Item>, e: seq<Item>, r': seq<Item>, e': seq<Item>, k: string)
    requires Settled(lib, r, e) && SameItems(r', r) && SameItems(e', e) && k in lib.Keys(r + e)
    ensures k in lib.Keys(r' + e') && lib.Last(r' + e', k) == lib.Last(r + e, k)
  {
    assert lib.Keys(r + e) == lib.Keys(r) + lib.Keys(e);
    SameKeys(lib, r, r', k);
    SameKeys(lib, e, e', k);
    LastOfBoth(lib, r, e, k);
    LastOfBoth(lib, r', e', k);
    if k in lib.Keys(e) {
      LastIsThere(lib, e, k);
      LastIsThere(lib, e', k);
      assert lib.Last(e', k) in multiset(e');
    } else {
      LastIsThere(lib, r, k);
      LastIsThere(lib, r', k);
      assert lib.Last(r', k) in multiset(r');
    }
  }

  lemma SameKeys(lib: Library, a: seq<Item>, b: seq<Item>, k: string)
    requires SameItems(b, a)
    ensures multiset(lib.Keys(b)) == multiset(lib.Keys(a))
    ensures k in lib.Keys(b) <==> k in lib.Keys(a)
  {
    ImageOfPermutation((x: Item) => lib.Key(x), b, a);
    assert k in lib.Keys(a) <==> k in multiset(lib.Keys(a));
    assert k in lib.Keys(b) <==> k in multiset(lib.Keys(b));
  }

  /** The library's sort puts the keys in the order of `less`. */
  ghost predicate Sorts(lib: Library, less: (string, string) -> bool) {
    lib.Permutes() && StrictTotalOrder(less) && forall s :: SortedBy(less, lib.sort(s))
  }

  lemma SameSortedKeys(lib: Library, less: (string, string) -> bool, a: seq<Item>, b: seq<Item>)
    requires Sorts(lib, less) && SameItems(a, b)
    ensures lib.sort(lib.Keys(a)) == lib.sort(lib.Keys(b))
  {
    SameKeys(lib, a, b, "");
    SortedIsUnique(less, lib.sort(lib.Keys(a)), lib.sort(lib.Keys(b)));
  }

  lemma SettledIsStable(lib: Library, less: (string, string) -> bool, r: seq<Item>, e: seq<Item>,
                        r': seq<Item>, e': seq<Item>)
    requires Sorts(lib, less) && Settled(lib, r, e) && SameItems(r', r) && SameItems(e', e)
    ensures lib.Sorted(r' + e') == lib.Sorted(r + e)
  {
    SameSortedKeys(lib, less, r' + e', r + e);
    var s := lib.sort(lib.Keys(r + e));
    forall m | 0 <= m < |s| ensures lib.Sorted(r' + e')[m] == lib.Sorted(r + e)[m] {
      lib.InKeys(r + e, s, m);
      lib.InKeys(r' + e', s, m);
      SameLast(lib, r, e, r', e', s[m]);
    }
  }

  /** Equal listings show equal items for a key. */
  lemma SameShown(lib: Library, less: (string, string) -> bool, a: seq<Item>, b: seq<Item>, k: string)
    requires Sorts(lib, less) && SameItems(a, b) && lib.Sorted(a) == lib.Sorted(b) && k in lib.Keys(a)
    ensures k in lib.Keys(b) && lib.Last(a, k) == lib.Last(b, k)
  {
    SameKeys(lib, b, a, k);
    SameSortedKeys(lib, less, a, b);
    var m := ShownAt(lib, a, k);
    assert lib.Sorted(b)[m] == lib.Last(b, k);
  }

  lemma LastItem(lib: Library, items: seq<Item>, x: Item)
    requires items != [] && items[|items| - 1] == x
    ensures lib.Key(x) in lib.Keys(items) && lib.Last(items, lib.Key(x)) == x
  {
    KeyOfMember(lib, items, x);
  }

  /** Whichever order the received items `r` arrive in and the errors `e` are gone through in, the
      listing is the same. */
  ghost predicate Stable(lib: Library, r: seq<Item>, e: seq<Item>)
    requires lib.Permutes()
  {
    forall r', e' :: SameItems(r', r) && SameItems(e', e) ==> lib.Sorted(r' + e') == lib.Sorted(r + e)
  }

  lemma StableErrors(lib: Library, less: (string, string) -> bool, r: seq<Item>, e: seq<Item>, x: Item, y: Item)
    requires Sorts(lib, less) && Stable(lib, r, e) && x in e && y in e && lib.Key(x) == lib.Key(y)
    ensures x == y
  {
    var ex := Moved(e, x);
    var ey := Moved(e, y);
    assert SameItems(r, r) && SameItems(ex, e) && SameItems(ey, e);
    LastItem(lib, ex, x);
    LastItem(lib, ey, y);
    LastOfBoth(lib, r, ex, lib.Key(x));
    LastOfBoth(lib, r, ey, lib.Key(x));
    SameShown(lib, less, r + ex, r + ey, lib.Key(x));
  }

  lemma StableReceived(lib: Library, less: (string, string) -> bool, r: seq<Item>, e: seq<Item>, x: Item, y: Item)
    requires Sorts(lib, less) && Stable(lib, r, e) && x in r && y in r && lib.Key(x) == lib.Key(y)
    requires lib.Key(x) !in lib.Keys(e)
    ensures x == y
  {
    var rx := Moved(r, x);
    var ry := Moved(r, y);
    assert SameItems(e, e) && SameItems(rx, r) && SameItems(ry, r);
    LastItem(lib, rx, x);
    LastItem(lib, ry, y);
    LastOfBoth(lib, rx, e, lib.Key(x));
    LastOfBoth(lib, ry, e, lib.Key(x));
    SameShown(lib, less, rx + e, ry + e, lib.Key(x));
  }

  /** The orders of arrival and of the map make no difference to the listing if and only if no two
      different errors have the same name up to case, and no two different received items have one
      that no error has: an error always hides what was received under its name. */
  lemma ArrivalMattersExactly(lib: Library, less: (string, string) -> bool, r: seq<Item>, e: seq<Item>)
    requires Sorts(lib, less)
    ensures Stable(lib, r, e) <==> Settled(lib, r, e)
  {
    if Settled(lib, r, e) {
      forall r', e' | SameItems(r', r) && SameItems(e', e) ensures lib.Sorted(r' + e') == lib.Sorted(r + e) {
        SettledIsStable(lib, less, r, e, r', e');
      }
    }
    if Stable(lib, r, e) {
      forall x, y | x in e && y in e && lib.Key(x) == lib.Key(y) ensures x == y { StableErrors(lib, less, r, e, x, y); }
      forall x, y | x in r && y in r && lib.Key(x) == lib.Key(y) && lib.Key(x) !in lib.Keys(e) ensures x == y {
        StableReceived(lib, less, r, e, x, y);
      }
    }
  }

  // ----- the same for runs

  /** A run in which the goroutine of each host produces its item in `values`. */
  ghost predicate IsRunOf(hosts: seq<Host>, values: seq<Item>, run: seq<Step<Item>>) {
    Completes(hosts, run) && HasSent(Outcome(Init(|hosts|), run), values)
  }

  /** Any two such runs, and any two orders of the map of hosts in error, give the same listing. */
  ghost predicate RunsAgree(lib: Library, hosts: seq<Host>, values: seq<Item>, errs: map<string, string>)
    requires lib.Permutes()
  {
    forall run, run', order, order' ::
      && IsRunOf(hosts, values, run) && IsRunOf(hosts, values, run')
      && Enumerates(order, errs) && Enumerates(order', errs) ==>
        lib.Sorted(Gathered(hosts, run, errs, order)) == lib.Sorted(Gathered(hosts, run', errs, order'))
  }

  lemma RunsReceive(hosts: seq<Host>, values: seq<Item>, run: seq<Step<Item>>)
    requires IsRunOf(hosts, values, run)
    ensures SameItems(Outcome(Init(|hosts|), run).received, values)
  {
    InitHolds<Item>(|hosts|);
    RunsCollectOnce(Init(|hosts|), run);
    assert Values(Outcome(Init(|hosts|), run).workers) == values;
  }

  lemma ArrivalIsRun(hosts: seq<Host>, values: seq<Item>, order: seq<Item>) returns (run: seq<Step<Item>>)
    requires |values| == |hosts| && (forall i :: 0 <= i < |hosts| ==> values[i].name == hosts[i].name)
    requires SameItems(order, values)
    ensures IsRunOf(hosts, values, run) && Outcome(Init(|hosts|), run).received == order
  {
    run := EveryOrderArises(values, order);
    forall i | 0 <= i < |run| ensures Honest(hosts, run[i]) { assert Produces(values, run[i]); }
  }

  /** Errors in another order are those of another order of the map. */
  lemma ErrorsReordered(errs: map<string, string>, order: seq<string>, e': seq<Item>)
    requires Enumerates(order, errs) && SameItems(e', ErrorItems(order, errs))
    ensures Enumerates(Names(e'), errs) && e' == ErrorItems(Names(e'), errs)
  {
    var e := ErrorItems(order, errs);
    NamesOfPermutation(e', e);
    var order' := Names(e');
    forall k ensures k in errs <==> k in order' {
      assert k in order <==> k in multiset(order);
      assert k in order' <==> k in multiset(order');
    }
    forall k ensures multiset(order')[k] <= 1 { DistinctCounts(order, k); }
    DistinctIfCountedOnce(order');
    forall i | 0 <= i < |e'| ensures e'[i] == ErrorItem(order'[i], errs[order'[i]]) {
      assert e'[i] in multiset(e');
      assert e'[i] in e;
      var j :| 0 <= j < |e| && e[j] == e'[i];
    }
  }

  lemma ListingOfRun(lib: Library, hosts: seq<Host>, values: seq<Item>, errs: map<string, string>, order: seq<string>,
                     r': seq<Item>, e': seq<Item>)
    requires lib.Permutes() && RunsAgree(lib, hosts, values, errs) && Enumerates(order, errs)
    requires |values| == |hosts| && (forall i :: 0 <= i < |hosts| ==> values[i].name == hosts[i].name)
    requires SameItems(r', values) && SameItems(e', ErrorItems(order, errs))
    ensures lib.Sorted(r' + e') == lib.Sorted(values + ErrorItems(order, errs))
  {
    var run := ArrivalIsRun(hosts, values, values);
    var run' := ArrivalIsRun(hosts, values, r');
    ErrorsReordered(errs, order, e');
    assert Gathered(hosts, run, errs, order) == values + ErrorItems(order, errs);
    assert Gathered(hosts, run', errs, Names(e')) == r' + e';
  }

  /** Whether `ls` always lists the same: exactly if, of what the goroutines answer and the hosts in
      error, no two different errors have the same name up to case, and no two different answers
      have one that no host in error has. */
  lemma RunsAgreeExactly(lib: Library, less: (string, string) -> bool, hosts: seq<Host>, values: seq<Item>,
                         errs: map<string, string>, order: seq<string>)
    requires Sorts(lib, less) && Enumerates(order, errs)
    requires |values| == |hosts| && (forall i :: 0 <= i < |hosts| ==> values[i].name == hosts[i].name)
    ensures RunsAgree(lib, hosts, values, errs) <==> Settled(lib, values, ErrorItems(order, errs))
  {
    var e := ErrorItems(order, errs);
    ArrivalMattersExactly(lib, less, values, e);
    if Settled(lib, values, e) {
      forall run, run', o, o' |
        && IsRunOf(hosts, values, run) && IsRunOf(hosts, values, run')
        && Enumerates(o, errs) && Enumerates(o', errs)
        ensures lib.Sorted(Gathered(hosts, run, errs, o)) == lib.Sorted(Gathered(hosts, run', errs, o'))
      {
        RunsReceive(hosts, values, run);
        RunsReceive(hosts, values, run');
        SameErrorItems(errs, o, order);
        SameErrorItems(errs, o', order);
      }
    }
    if RunsAgree(lib, hosts, values, errs) {
      forall r', e' | SameItems(r', values) && SameItems(e', e) ensures lib.Sorted(r' + e') == lib.Sorted(values + e) {
        ListingOfRun(lib, hosts, values, errs, order, r', e');
      }
    }
  }

  /** The names in lower case. */
  function Lowered(lib: Library, names: seq<string>): seq<string> { Image((n: string) => lib.lower(n), names) }

  lemma DistinctNamesDoNotClash(lib: Library, items: seq<Item>, names: seq<string>)
    requires multiset(Names(items)) == multiset(names) && Distinct(Lowered(lib, names))
    ensures NoClash(lib, items)
  {
    ImageOfPermutation((n: string) => lib.lower(n), Names(items), names);
    assert Lowered(lib, Names(items)) == lib.Keys(items);
    forall x, y | x in items && y in items && lib.Key(x) == lib.Key(y) ensures x == y {
      DistinctCounts(Lowered(lib, names), lib.Key(x));
      ItemsAndKeys(lib, items, x);
      assert multiset(items)[x] >= 1;
    }
  }

  /** When all names differ in lower case: the listing is a permutation of the items, and two
      runs whose goroutines produce the same items give the same listing, whatever their
      interleavings and whichever two orders the map of hosts in error is gone through in. */
  lemma ListingIsDetermined(hosts: seq<Host>, run: seq<Step<Item>>, run': seq<Step<Item>>,
                            errs: map<string, string>, order: seq<string>, order': seq<string>,
                            lib: Library, less: (string, string) -> bool)
    requires Completes(hosts, run) && Completes(hosts, run') && Enumerates(order, errs) && Enumerates(order', errs)
    requires Outcome(Init(|hosts|), run).workers == Outcome(Init(|hosts|), run').workers
    requires lib.Permutes() && StrictTotalOrder(less) && forall s :: SortedBy(less, lib.sort(s))
    requires Distinct(Lowered(lib, HostNames(hosts) + order))
    ensures var a, b := Gathered(hosts, run, errs, order), Gathered(hosts, run', errs, order');
            lib.Sorted(a) == lib.Sorted(b) && multiset(lib.Sorted(a)) == multiset(a) == multiset(b)
  {
    var a, b := Gathered(hosts, run, errs, order), Gathered(hosts, run', errs, order');
    InitHolds<Item>(|hosts|);
    RunsCollectOnce(Init(|hosts|), run);
    RunsCollectOnce(Init(|hosts|), run');
    SameErrorItems(errs, order, order');
    GatheredNames(hosts, run, errs, order);
    DistinctNamesDoNotClash(lib, a, HostNames(hosts) + order);
    ArrivalOrderIsIrrelevant(lib, less, a, b);
    SortingLosesNothingExactly(lib, a);
  }

  lemma SameErrorItems(errs: map<string, string>, order: seq<string>, order': seq<string>)
    requires Enumerates(order, errs) && Enumerates(order', errs)
    ensures multiset(ErrorItems(order, errs)) == multiset(ErrorItems(order', errs))
  {
    DistinctWithSameElements(order, order');
    var f := (n: string) => if n in errs then ErrorItem(n, errs[n]) else Named(n);
    ImageOfPermutation(f, order, order');
    assert Image(f, order) == ErrorItems(order, errs) && Image(f, order') == ErrorItems(order', errs);
  }

  /** Of two machines whose names differ in case only, one is listed twice and one not at all. */
  lemma CaseClashLosesItem(lib: Library)
    requires lib.Permutes() && lib.lower("Box") == lib.lower("box")
    ensures var items := [Item("Box", "", "", ""), Item("box", "", "", "")];
            multiset(lib.Sorted(items)) != multiset(items)
  {
    var items := [Item("Box", "", "", ""), Item("box", "", "", "")];
    SortingLosesNothingExactly(lib, items);
    assert items[0] in items && items[1] in items && lib.Key(items[0]) == lib.Key(items[1]);
    assert items[0].name[0] != items[1].name[0];
  }

  /** The listing is in the order of the names, up to case. */
  lemma ListingIsInOrder(lib: Library, less: (string, string) -> bool, items: seq<Item>)
    requires Sorts(lib, less)
    ensures SortedBy(less, lib.Keys(lib.Sorted(items)))
  {
    var s := lib.sort(lib.Keys(items));
    forall i | 0 <= i < |s| ensures lib.Keys(lib.Sorted(items))[i] == s[i] {
      lib.InKeys(items, s, i);
      LastIsThere(lib, items, s[i]);
    }
    assert lib.Keys(lib.Sorted(items)) == s;
  }

  /** A host in error is listed under its name, as such, with the text of the error on one line. */
  lemma ErrorIsShown(name: string, err: string)
    ensures var x := ErrorItem(name, err);
            && x.name == name && x.driver == "not found" && x.state == "Error" && '\n' !in x.detail
            && ('\n' !in err ==> x.detail == err)
  {
    ErrorIsOneLine(err);
  }

  /** The text of an error is shown on one line, all other characters kept. */
  lemma {:induction false} ErrorIsOneLine(err: string)
    ensures '\n' !in ReplaceAll(err, "\n", "")
    ensures '\n' !in err ==> ReplaceAll(err, "\n", "") == err
    ensures forall c :: c != '\n' ==> multiset(ReplaceAll(err, "\n", ""))[c] == multiset(err)[c]
  {
    if err != "" {
      ErrorIsOneLine(err[1..]);
      assert err == [err[0]] + err[1..];
      assert HasPrefix(err, "\n") <==> err[0] == '\n';
    }
  }
}
