/** Stable sorting by a string key, as `slice::sort_by` does it. */
module StableSort {

  /** Order of strings: by code point, a proper prefix first. */
  predicate Le(a: string, b: string) {
    a == [] || (b != [] && (a[0] < b[0] || (a[0] == b[0] && Le(a[1..], b[1..]))))
  }

  /** `a` and `b` first differ at `k`, where `a` has the smaller character. */
  predicate DiffersAt(a: string, b: string, k: nat) {
    k < |a| && k < |b| && a[..k] == b[..k] && a[k] < b[k]
  }

  lemma {:induction false} SameHead(a: string, b: string, k: nat)
    requires DiffersAt(a, b, k)
    ensures if k == 0 then a[0] < b[0] else a[0] == b[0]
  {
    if k > 0 { assert a[..k][0] == a[0] && b[..k][0] == b[0]; }
  }

  /** Strings are compared at the first difference, and a prefix comes first. */
  lemma {:induction false} LeIsLexicographic(a: string, b: string)
    ensures Le(a, b) <==> a <= b || exists k: nat :: DiffersAt(a, b, k)
  {
    if a != [] && b != [] {
      if a[0] == b[0] {
        var x, y := a[1..], b[1..];
        LeIsLexicographic(x, y);
        assert a == [a[0]] + x && b == [a[0]] + y;
        if k: nat :| DiffersAt(x, y, k) {
          assert a[..k + 1] == [a[0]] + x[..k] && b[..k + 1] == [a[0]] + y[..k];
          assert DiffersAt(a, b, k + 1);
        }
        if k: nat :| DiffersAt(a, b, k) {
          assert k > 0 && x[..k - 1] == a[..k][1..] && y[..k - 1] == b[..k][1..];
          assert DiffersAt(x, y, k - 1);
        }
      } else {
        if a[0] < b[0] { assert DiffersAt(a, b, 0); }
        forall k: nat | DiffersAt(a, b, k) ensures a[0] < b[0] {
          SameHead(a, b, k);
        }
      }
    }
  }

  lemma {:induction false} LeTotal(a: string, b: string)
    ensures Le(a, b) || Le(b, a)
  {
    if a != [] && b != [] && a[0] == b[0] { LeTotal(a[1..], b[1..]); }
  }

  lemma {:induction false} LeTransitive(a: string, b: string, c: string)
    requires Le(a, b) && Le(b, c)
    ensures Le(a, c)
  {
    if a != [] && a[0] == b[0] == c[0] { LeTransitive(a[1..], b[1..], c[1..]); }
  }

  lemma {:induction false} LeAntisymmetric(a: string, b: string)
    requires Le(a, b) && Le(b, a)
    ensures a == b
  {
    if a != [] {
      LeAntisymmetric(a[1..], b[1..]);
      assert a == [a[0]] + a[1..] && b == [b[0]] + b[1..];
    }
  }

  /** `x` behind everything whose key is not greater. */
  function Insert<T>(ys: seq<T>, x: T, key: T -> string): seq<T> {
    if ys == [] || Le(key(ys[|ys| - 1]), key(x)) then ys + [x]
    else Insert(ys[..|ys| - 1], x, key) + [ys[|ys| - 1]]
  }

  function Sort<T>(xs: seq<T>, key: T -> string): seq<T> {
    if xs == [] then [] else Insert(Sort(xs[..|xs| - 1], key), xs[|xs| - 1], key)
  }

  predicate Sorted<T>(ys: seq<T>, key: T -> string) {
    forall i, j :: 0 <= i < j < |ys| ==> Le(key(ys[i]), key(ys[j]))
  }

  /** The elements with key `k`, in their order. */
  function Group<T>(xs: seq<T>, key: T -> string, k: string): seq<T> {
    if xs == [] then []
    else Group(xs[..|xs| - 1], key, k) + (if key(xs[|xs| - 1]) == k then [xs[|xs| - 1]] else [])
  }

  lemma {:induction false} InsertKeeps<T>(ys: seq<T>, x: T, key: T -> string)
    ensures multiset(Insert(ys, x, key)) == multiset(ys) + multiset{x}
    ensures Sorted(ys, key) ==> Sorted(Insert(ys, x, key), key)
  {
    if ys != [] {
      var n, last := |ys| - 1, ys[|ys| - 1];
      assert ys == ys[..n] + [last];
      if Le(key(last), key(x)) {
        if Sorted(ys, key) {
          forall i | 0 <= i < |ys|
            ensures Le(key(ys[i]), key(x))
          {
            if i < n { LeTransitive(key(ys[i]), key(last), key(x)); }
          }
        }
      } else {
        LeTotal(key(last), key(x));
        InsertKeeps(ys[..n], x, key);
        var front := Insert(ys[..n], x, key);
        if Sorted(ys, key) {
          assert Sorted(ys[..n], key);
          forall i | 0 <= i < |front|
            ensures Le(key(front[i]), key(last))
          {
            assert front[i] in multiset(front);
            if front[i] != x {
              assert front[i] in ys[..n];
            }
          }
        }
      }
    }
  }

  lemma {:induction false} GroupSnoc<T>(xs: seq<T>, x: T, key: T -> string, k: string)
    ensures Group(xs + [x], key, k) == Group(xs, key, k) + (if key(x) == k then [x] else [])
  {
    assert (xs + [x])[..|xs|] == xs;
  }

  lemma {:induction false} NotLe(a: string, b: string)
    requires !Le(a, b)
    ensures a != b
  {
    LeTotal(a, a);
  }

  lemma {:induction false} EitherOrder<T>(g: seq<T>, a: seq<T>, b: seq<T>)
    requires a == [] || b == []
    ensures g + a + b == g + b + a
  {
  }

  lemma {:induction false} InsertIsStable<T>(ys: seq<T>, x: T, key: T -> string, k: string)
    ensures Group(Insert(ys, x, key), key, k) == Group(ys, key, k) + (if key(x) == k then [x] else [])
  {
    if ys == [] || Le(key(ys[|ys| - 1]), key(x)) {
      GroupSnoc(ys, x, key, k);
    } else {
      var front, last := ys[..|ys| - 1], ys[|ys| - 1];
      assert ys == front + [last];
      NotLe(key(last), key(x));
      InsertIsStable(front, x, key, k);
      GroupSnoc(Insert(front, x, key), last, key, k);
      GroupSnoc(front, last, key, k);
      EitherOrder(Group(front, key, k), if key(x) == k then [x] else [], if key(last) == k then [last] else []);
    }
  }

  lemma {:induction false} SortKeeps<T>(xs: seq<T>, key: T -> string)
    ensures Sorted(Sort(xs, key), key)
    ensures multiset(Sort(xs, key)) == multiset(xs)
  {
    if xs != [] {
      var n := |xs| - 1;
      SortKeeps(xs[..n], key);
      InsertKeeps(Sort(xs[..n], key), xs[n], key);
      assert multiset(xs) == multiset(xs[..n]) + multiset{xs[n]} by {
        assert xs == xs[..n] + [xs[n]];
      }
    }
  }

  lemma {:induction false} SortKeepsGroups<T>(xs: seq<T>, key: T -> string, k: string)
    ensures Group(Sort(xs, key), key, k) == Group(xs, key, k)
  {
    if xs != [] {
      var n := |xs| - 1;
      SortKeepsGroups(xs[..n], key, k);
      InsertIsStable(Sort(xs[..n], key), xs[n], key, k);
    }
  }

  /** Sorted, the same elements, and equal keys in their original order. */
  lemma {:induction false} SortIsStable<T>(xs: seq<T>, key: T -> string, k: string)
    ensures Sorted(Sort(xs, key), key)
    ensures multiset(Sort(xs, key)) == multiset(xs)
    ensures Group(Sort(xs, key), key, k) == Group(xs, key, k)
  {
    SortKeeps(xs, key);
    SortKeepsGroups(xs, key, k);
  }

  lemma {:induction false} MemberOfGroup<T>(xs: seq<T>, key: T -> string, i: nat)
    requires i < |xs|
    ensures xs[i] in Group(xs, key, key(xs[i]))
  {
    if i < |xs| - 1 { MemberOfGroup(xs[..|xs| - 1], key, i); }
  }

  lemma {:induction false} GroupMembers<T>(xs: seq<T>, key: T -> string, k: string, x: T)
    requires x in Group(xs, key, k)
    ensures x in xs && key(x) == k
  {
    if xs != [] {
      var n := |xs| - 1;
      if x in Group(xs[..n], key, k) { GroupMembers(xs[..n], key, k, x); }
    }
  }

  /** The key of the last element of a sorted sequence is its greatest. */
  lemma {:induction false} LastIsGreatest<T>(a: seq<T>, b: seq<T>, key: T -> string)
    requires a != [] && Sorted(b, key)
    requires forall k :: Group(a, key, k) == Group(b, key, k)
    ensures b != [] && Le(key(a[|a| - 1]), key(b[|b| - 1]))
  {
    var x := a[|a| - 1];
    MemberOfGroup(a, key, |a| - 1);
    assert x in Group(b, key, key(x));
    GroupMembers(b, key, key(x), x);
    LeTotal(key(x), key(x));
  }

  /** These properties determine the result: any stable sort gives this one. */
  lemma {:induction false} StableSortIsUnique<T>(a: seq<T>, b: seq<T>, key: T -> string)
    requires Sorted(a, key) && Sorted(b, key)
    requires forall k :: Group(a, key, k) == Group(b, key, k)
    ensures a == b
  {
    if a == [] {
      if b != [] { LastIsGreatest(b, a, key); }
    } else {
      LastIsGreatest(a, b, key);
      LastIsGreatest(b, a, key);
      var m, n := |a| - 1, |b| - 1;
      LeAntisymmetric(key(a[m]), key(b[n]));
      var k := key(a[m]);
      assert Group(a, key, k)[|Group(a, key, k)| - 1] == a[m];
      assert Group(b, key, k)[|Group(b, key, k)| - 1] == b[n];
      forall j
        ensures Group(a[..m], key, j) == Group(b[..n], key, j)
      {
        var ga, gb := Group(a[..m], key, j), Group(b[..n], key, j);
        assert Group(a, key, j) == Group(b, key, j);
        assert ga == Group(a, key, j)[..|ga|] && gb == Group(b, key, j)[..|gb|];
      }
      StableSortIsUnique(a[..m], b[..n], key);
      assert a == a[..m] + [a[m]] && b == b[..n] + [b[n]];
    }
  }
}

/** Taking permutations apart. */
module Permutation {

  function Without<T>(s: seq<T>, i: nat): seq<T>
    requires i < |s|
  {
    s[..i] + s[i + 1..]
  }

  lemma {:induction false} WithoutSnoc<T>(s: seq<T>, i: nat)
    requires i < |s| - 1
    ensures Without(s, i) == Without(s[..|s| - 1], i) + [s[|s| - 1]]
  {
  }

  lemma {:induction false} WithoutOne<T>(s: seq<T>, i: nat)
    requires i < |s|
    ensures multiset(s) == multiset(Without(s, i)) + multiset{s[i]}
  {
    assert s == s[..i] + [s[i]] + s[i + 1..];
  }

  /** Where the last element of one stands in the other. */
  lemma {:induction false} LastOf<T>(a: seq<T>, b: seq<T>) returns (i: nat)
    requires a != [] && multiset(a) == multiset(b)
    ensures i < |b| && b[i] == a[|a| - 1]
    ensures multiset(a[..|a| - 1]) == multiset(Without(b, i))
  {
    var n := |a| - 1;
    assert a[n] in multiset(b);
    i :| 0 <= i < |b| && b[i] == a[n];
    WithoutOne(b, i);
    WithoutOne(a, n);
    assert Without(a, n) == a[..n];
    assert multiset(Without(b, i)) == multiset(b) - multiset{b[i]};
    assert multiset(a[..n]) == multiset(a) - multiset{a[n]};
  }

  lemma {:induction false} NothingPermuted<T>(a: seq<T>, b: seq<T>)
    requires a == [] && multiset(a) == multiset(b)
    ensures b == []
  {
    assert |b| == |multiset(b)| == 0;
  }
}

/** From the producer's coverage artifact to the wire form of the breakouts. */
module Breakouts {
  import opened Permutation
  import opened StableSort

  datatype HandlerEntry = HandlerEntry(route: string, rustPath: string, pct: real)

  datatype CrateHandlers = CrateHandlers(name: string, handlers: seq<HandlerEntry>)

  type Artifact = seq<CrateHandlers>

  datatype WireHandler = WireHandler(handler: string, pct: real)

  datatype WireCrate = WireCrate(name: string, handlers: seq<WireHandler>)

  datatype Entry = Entry(crate: string, route: string, pct: real)

  function WireHandlers(hs: seq<HandlerEntry>): seq<WireHandler> {
    seq(|hs|, i requires 0 <= i < |hs| => WireHandler(hs[i].route, hs[i].pct))
  }

  function RouteKey(h: WireHandler): string { h.handler }

  function CrateKey(c: WireCrate): string { c.name }

  function ToWireCrate(c: CrateHandlers): WireCrate {
    WireCrate(c.name, Sort(WireHandlers(c.handlers), RouteKey))
  }

  function WireCrates(a: Artifact): seq<WireCrate> {
    seq(|a|, i requires 0 <= i < |a| => ToWireCrate(a[i]))
  }

  function ToWireBreakouts(a: Artifact): seq<WireCrate> {
    Sort(WireCrates(a), CrateKey)
  }

  /** All (crate, route, percentage) entries of the artifact. */
  function Entries(a: Artifact): seq<Entry> {
    if a == [] then []
    else Entries(a[..|a| - 1]) + CrateEntries(a[|a| - 1])
  }

  function CrateEntries(c: CrateHandlers): seq<Entry> {
    seq(|c.handlers|, i requires 0 <= i < |c.handlers| => Entry(c.name, c.handlers[i].route, c.handlers[i].pct))
  }

  function WireEntries(w: seq<WireCrate>): seq<Entry> {
    if w == [] then [] else WireEntries(w[..|w| - 1]) + WireCrateEntries(w[|w| - 1])
  }

  function WireCrateEntries(c: WireCrate): seq<Entry> {
    seq(|c.handlers|, i requires 0 <= i < |c.handlers| => Entry(c.name, c.handlers[i].handler, c.handlers[i].pct))
  }

  /** `iter_handler_pcts`. */
  function Pcts(es: seq<Entry>): seq<real> {
    seq(|es|, i requires 0 <= i < |es| => es[i].pct)
  }

  /** Crates sorted by name, handlers by route, equal ones as the producer had them. */
  lemma {:induction false} WireIsSorted(a: Artifact, i: nat, name: string, route: string)
    requires i < |a|
    ensures Sorted(ToWireBreakouts(a), CrateKey)
    ensures Group(ToWireBreakouts(a), CrateKey, name) == Group(WireCrates(a), CrateKey, name)
    ensures multiset(ToWireBreakouts(a)) == multiset(WireCrates(a))
    ensures ToWireCrate(a[i]) in ToWireBreakouts(a)
    ensures Sorted(ToWireCrate(a[i]).handlers, RouteKey)
    ensures Group(ToWireCrate(a[i]).handlers, RouteKey, route) == Group(WireHandlers(a[i].handlers), RouteKey, route)
  {
    SortIsStable(WireCrates(a), CrateKey, name);
    SortIsStable(WireHandlers(a[i].handlers), RouteKey, route);
    assert WireCrates(a)[i] in multiset(ToWireBreakouts(a));
  }

  lemma {:induction false} HandlerEntriesWithout(name: string, b: seq<WireHandler>, i: nat)
    requires i < |b|
    ensures multiset(WireCrateEntries(WireCrate(name, b)))
         == multiset(WireCrateEntries(WireCrate(name, Without(b, i)))) + multiset{Entry(name, b[i].handler, b[i].pct)}
  {
    var eb := WireCrateEntries(WireCrate(name, b));
    WithoutOne(eb, i);
    assert WireCrateEntries(WireCrate(name, Without(b, i))) == Without(eb, i);
  }

  /** Entries of a crate depend on its handlers as a multiset only. */
  lemma {:induction false} PermutedHandlers(name: string, a: seq<WireHandler>, b: seq<WireHandler>)
    requires multiset(a) == multiset(b)
    ensures multiset(WireCrateEntries(WireCrate(name, a))) == multiset(WireCrateEntries(WireCrate(name, b)))
    decreases |a|
  {
    if a == [] {
      NothingPermuted(a, b);
    } else {
      var i := LastOf(a, b);
      PermutedHandlers(name, a[..|a| - 1], Without(b, i));
      HandlerEntriesWithout(name, b, i);
      HandlerEntriesWithout(name, a, |a| - 1);
      assert Without(a, |a| - 1) == a[..|a| - 1];
    }
  }

  /** Entries of the wire form depend on its crates as a multiset only. */
  lemma {:induction false} PermutedCrates(a: seq<WireCrate>, b: seq<WireCrate>)
    requires multiset(a) == multiset(b)
    ensures multiset(WireEntries(a)) == multiset(WireEntries(b))
    decreases |a|
  {
    if a == [] {
      NothingPermuted(a, b);
    } else {
      var i := LastOf(a, b);
      PermutedCrates(a[..|a| - 1], Without(b, i));
      WireEntriesWithout(b, i);
    }
  }

  lemma {:induction false} WireEntriesSnoc(w: seq<WireCrate>, c: WireCrate)
    ensures WireEntries(w + [c]) == WireEntries(w) + WireCrateEntries(c)
  {
    assert (w + [c])[..|w|] == w;
  }

  lemma {:induction false} WireMultisetSnoc(w: seq<WireCrate>, c: WireCrate)
    ensures multiset(WireEntries(w + [c])) == multiset(WireEntries(w)) + multiset(WireCrateEntries(c))
  {
    WireEntriesSnoc(w, c);
  }

  lemma {:induction false} WireEntriesWithout(b: seq<WireCrate>, i: nat)
    requires i < |b|
    ensures multiset(WireEntries(b)) == multiset(WireEntries(Without(b, i))) + multiset(WireCrateEntries(b[i]))
  {
    var front, last := b[..|b| - 1], b[|b| - 1];
    assert b == front + [last];
    WireMultisetSnoc(front, last);
    if i == |front| {
      assert Without(b, i) == front;
    } else {
      WireEntriesWithout(front, i);
      WithoutSnoc(b, i);
      WireMultisetSnoc(Without(front, i), last);
    }
  }

  lemma {:induction false} MappedCrate(c: CrateHandlers)
    ensures multiset(WireCrateEntries(ToWireCrate(c))) == multiset(CrateEntries(c))
  {
    var unsorted := WireHandlers(c.handlers);
    SortIsStable(unsorted, RouteKey, "");
    PermutedHandlers(c.name, Sort(unsorted, RouteKey), unsorted);
    assert WireCrateEntries(WireCrate(c.name, unsorted)) == CrateEntries(c);
  }

  lemma {:induction false} MappedEntries(a: Artifact)
    ensures multiset(WireEntries(WireCrates(a))) == multiset(Entries(a))
  {
    if a != [] {
      var n := |a| - 1;
      MappedEntries(a[..n]);
      MappedCrate(a[n]);
      WireEntriesSnoc(WireCrates(a[..n]), ToWireCrate(a[n]));
      assert WireCrates(a) == WireCrates(a[..n]) + [ToWireCrate(a[n])];
    }
  }

  /** Sorting neither loses, adds nor changes an entry. */
  lemma {:induction false} WireKeepsEntries(a: Artifact)
    ensures multiset(WireEntries(ToWireBreakouts(a))) == multiset(Entries(a))
  {
    SortIsStable(WireCrates(a), CrateKey, "");
    PermutedCrates(ToWireBreakouts(a), WireCrates(a));
    MappedEntries(a);
  }
}
