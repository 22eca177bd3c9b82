/**
 The package ordering of a colcon workspace: a greedy topological sort that always takes the
 alphabetically first package whose dependencies are all done, and the reduction that singles
 out the packages involved in a circular dependency.
 */
module PackageOrder {
  import opened Wrappers

  type Dependencies = map<string, set<string>>

  // ---------- alphabetical order ----------

  predicate Before(a: string, b: string)
  {
    b != [] && (a == [] || a[0] < b[0] || (a[0] == b[0] && Before(a[1..], b[1..])))
  }

  lemma {:induction false} BeforeIsTotal(a: string, b: string)
    ensures a == b || Before(a, b) || Before(b, a)
    ensures !(Before(a, b) && Before(b, a)) && !Before(a, a)
  {
    if a != [] && b != [] && a[0] == b[0] {
      BeforeIsTotal(a[1..], b[1..]);
      assert a == [a[0]] + a[1..] && b == [b[0]] + b[1..];
    }
    if a != [] {
      BeforeIsTotal(a[1..], a[1..]);
    }
  }

  lemma {:induction false} BeforeIsTransitive(a: string, b: string, c: string)
    requires Before(a, b) && Before(b, c)
    ensures Before(a, c)
  {
    if a != [] && a[0] == b[0] == c[0] {
      BeforeIsTransitive(a[1..], b[1..], c[1..]);
    }
  }

  /** The strings agree up to i, where a ends or has the smaller character. */
  ghost predicate SmallerFrom(a: string, b: string, i: int)
  {
    0 <= i <= |a| && i < |b| && a[..i] == b[..i] && (i == |a| || a[i] < b[i])
  }

  lemma SmallerBehindHead(a: string, b: string, i: int)
    requires a != [] && b != []
    ensures SmallerFrom(a, b, i + 1) && i >= 0 <==> a[0] == b[0] && SmallerFrom(a[1..], b[1..], i)
  {
    if 0 <= i < |a| && i + 1 < |b| {
      assert a[..i + 1] == [a[0]] + a[1..][..i] && b[..i + 1] == [b[0]] + b[1..][..i];
    }
  }

  /** A proper prefix comes first; otherwise the first differing characters decide. */
  lemma {:induction false} BeforeIsAlphabetical(a: string, b: string)
    ensures Before(a, b) <==>
              exists i :: 0 <= i <= |a| && i < |b| && a[..i] == b[..i] && (i == |a| || a[i] < b[i])
  {
    BeforeIsSmaller(a, b);
    assert forall i :: SmallerFrom(a, b, i) <==>
             0 <= i <= |a| && i < |b| && a[..i] == b[..i] && (i == |a| || a[i] < b[i]);
    hide SmallerFrom, Before;
  }

  lemma {:induction false} BeforeIsSmaller(a: string, b: string)
    ensures Before(a, b) <==> exists i :: SmallerFrom(a, b, i)
  {
    assert SmallerFrom(a, b, 0) <==> b != [] && (a == [] || a[0] < b[0]);
    if a != [] && b != [] {
      BeforeIsSmaller(a[1..], b[1..]);
      if i :| SmallerFrom(a[1..], b[1..], i) {
        SmallerBehindHead(a, b, i);
      }
      if i :| SmallerFrom(a, b, i) {
        SmallerBehindHead(a, b, i - 1);
      }
    }
  }

  // ---------- orders ----------

  function Names(s: seq<string>): set<string>
  {
    set x | x in s
  }

  lemma NamesAppend(s: seq<string>, x: string)
    ensures Names(s + [x]) == Names(s) + {x}
  {
  }

  ghost predicate Distinct(s: seq<string>)
  {
    forall i, j :: 0 <= i < j < |s| ==> s[i] != s[j]
  }

  ghost predicate Closed(deps: Dependencies)
  {
    forall p :: p in deps ==> deps[p] <= deps.Keys
  }

  /** Every package once, and each behind everything it depends on. */
  ghost predicate IsOrder(deps: Dependencies, order: seq<string>)
  {
    && Distinct(order) && Names(order) == deps.Keys
    && forall i :: 0 <= i < |order| ==> deps[order[i]] <= Names(order[..i])
  }

  predicate Available(deps: Dependencies, done: set<string>, name: string)
  {
    name in deps && name !in done && deps[name] <= done
  }

  ghost predicate IsFirstAvailable(deps: Dependencies, done: set<string>, name: string)
  {
    Available(deps, done, name) &&
    forall other :: Available(deps, done, other) ==> other == name || Before(name, other)
  }

  /** What the loop of order_packages has built so far. */
  ghost predicate IsGreedy(deps: Dependencies, order: seq<string>)
  {
    forall i :: 0 <= i < |order| ==> IsFirstAvailable(deps, Names(order[..i]), order[i])
  }

  /** The first difference decides, alphabetically. */
  ghost predicate NotAfter(o: seq<string>, p: seq<string>)
  {
    o == p || exists i :: 0 <= i < |o| && i < |p| && o[..i] == p[..i] && Before(o[i], p[i])
  }

  lemma {:induction false} GreedyIsDistinct(deps: Dependencies, order: seq<string>)
    requires IsGreedy(deps, order)
    ensures Distinct(order) && Names(order) <= deps.Keys
  {
    forall i, j | 0 <= i < j < |order| ensures order[i] != order[j] {
      assert IsFirstAvailable(deps, Names(order[..j]), order[j]);
      assert order[i] == order[..j][i];
    }
    forall x | x in order ensures x in deps {
      var i :| 0 <= i < |order| && order[i] == x;
      assert IsFirstAvailable(deps, Names(order[..i]), order[i]);
    }
  }

  /** A complete greedy list is an order of the packages. */
  lemma GreedyIsOrder(deps: Dependencies, order: seq<string>)
    requires IsGreedy(deps, order) && deps.Keys <= Names(order)
    ensures IsOrder(deps, order)
  {
    GreedyIsDistinct(deps, order);
    forall i | 0 <= i < |order| ensures deps[order[i]] <= Names(order[..i]) {
      assert IsFirstAvailable(deps, Names(order[..i]), order[i]);
    }
  }

  /** Of all orders the greedy one is the alphabetically least. */
  lemma GreedyIsLeast(deps: Dependencies, order: seq<string>, other: seq<string>)
    requires IsGreedy(deps, order) && IsOrder(deps, order) && IsOrder(deps, other)
    ensures NotAfter(order, other)
  {
    SameLength(order, other);
    var i := FirstDifference(order, other);
    if i < |order| {
      OtherIsAvailable(deps, order[..i], other, i);
      assert IsFirstAvailable(deps, Names(order[..i]), order[i]);
    }
  }

  /** NotAfter in terms of the first differing names and their first differing characters. */
  lemma FirstSmaller(o: seq<string>, p: seq<string>) returns (k: nat, i: nat)
    requires NotAfter(o, p) && o != p
    ensures k < |o| && k < |p| && o[..k] == p[..k]
    ensures i <= |o[k]| && i < |p[k]| && o[k][..i] == p[k][..i] && (i == |o[k]| || o[k][i] < p[k][i])
  {
    k :| 0 <= k < |o| && k < |p| && o[..k] == p[..k] && Before(o[k], p[k]);
    BeforeIsAlphabetical(o[k], p[k]);
    i :| 0 <= i <= |o[k]| && i < |p[k]| && o[k][..i] == p[k][..i] && (i == |o[k]| || o[k][i] < p[k][i]);
  }

  lemma FirstDifference(a: seq<string>, b: seq<string>) returns (i: nat)
    requires |a| == |b|
    ensures i <= |a| && a[..i] == b[..i] && (i < |a| ==> a[i] != b[i]) && (i == |a| ==> a == b)
  {
    i := 0;
    while i < |a| && a[i] == b[i]
      invariant i <= |a| && forall x :: 0 <= x < i ==> a[x] == b[x]
    {
      i := i + 1;
    }
  }

  lemma OtherIsAvailable(deps: Dependencies, prefix: seq<string>, other: seq<string>, i: nat)
    requires IsOrder(deps, other) && i < |other| && other[..i] == prefix
    ensures Available(deps, Names(prefix), other[i])
  {
    assert other[i] in Names(other);
  }

  lemma {:induction false} SizeOfNames(s: seq<string>)
    requires Distinct(s)
    ensures |Names(s)| == |s|
  {
    if s != [] {
      var n := |s| - 1;
      SizeOfNames(s[..n]);
      assert Names(s) == Names(s[..n]) + {s[n]};
      assert s[n] !in s[..n];
    }
  }

  lemma SameLength(o: seq<string>, p: seq<string>)
    requires Distinct(o) && Distinct(p) && Names(o) == Names(p)
    ensures |o| == |p|
  {
    SizeOfNames(o);
    SizeOfNames(p);
  }

  // ---------- cycles ----------

  predicate Needs(deps: Dependencies, p: string, d: string)
  {
    p in deps && d in deps[p]
  }

  /** Each package of the path needs the next one. */
  ghost predicate IsPath(deps: Dependencies, w: seq<string>)
  {
    |w| <= 1 || (IsPath(deps, w[..|w| - 1]) && Needs(deps, w[|w| - 2], w[|w| - 1]))
  }

  ghost predicate IsCycle(deps: Dependencies, c: seq<string>)
  {
    c != [] && IsPath(deps, c) && Needs(deps, c[|c| - 1], c[0])
  }

  lemma {:induction false} PathStep(deps: Dependencies, w: seq<string>, i: nat)
    requires IsPath(deps, w) && i + 1 < |w|
    ensures Needs(deps, w[i], w[i + 1])
  {
    if i + 2 < |w| {
      PathStep(deps, w[..|w| - 1], i);
    }
  }

  lemma {:induction false} PathPiece(deps: Dependencies, w: seq<string>, i: nat, j: nat)
    requires IsPath(deps, w) && i <= j <= |w|
    ensures IsPath(deps, w[i..j])
    decreases j
  {
    if j >= i + 2 {
      PathPiece(deps, w, i, j - 1);
      PathStep(deps, w, j - 2);
      assert w[i..j][..j - i - 1] == w[i..j - 1];
    }
  }

  ghost predicate HasCycle(deps: Dependencies)
  {
    exists c :: IsCycle(deps, c)
  }

  lemma IndexBefore(deps: Dependencies, order: seq<string>, i: nat, d: string) returns (j: nat)
    requires IsOrder(deps, order) && i < |order| && Needs(deps, order[i], d)
    ensures j < i && order[j] == d
  {
    assert d in Names(order[..i]);
    j :| 0 <= j < i && order[..i][j] == d;
  }

  lemma {:induction false} CycleGoesBack(deps: Dependencies, order: seq<string>, c: seq<string>, n: nat, at: nat)
    returns (j: nat)
    requires IsOrder(deps, order) && IsPath(deps, c) && n < |c|
    requires at < |order| && order[at] == c[0]
    ensures j <= at && order[j] == c[n]
  {
    if n == 0 {
      j := at;
    } else {
      j := CycleGoesBack(deps, order, c, n - 1, at);
      PathStep(deps, c, n - 1);
      j := IndexBefore(deps, order, j, c[n]);
    }
  }

  /** A dependency map with an order has no cycle. */
  lemma OrderExcludesCycles(deps: Dependencies, order: seq<string>)
    requires IsOrder(deps, order)
    ensures !HasCycle(deps)
  {
    forall c ensures !IsCycle(deps, c) {
      if c != [] && IsPath(deps, c) && c[0] in Names(order) {
        var at :| 0 <= at < |order| && order[at] == c[0];
        var j := CycleGoesBack(deps, order, c, |c| - 1, at);
        BackBeyondItself(deps, order, at, j, c[0]);
      } else if IsCycle(deps, c) {
        PathStarts(deps, c);
      }
    }
  }

  lemma PathStarts(deps: Dependencies, c: seq<string>)
    requires IsCycle(deps, c)
    ensures c[0] in deps
  {
    if |c| > 1 {
      PathStep(deps, c, 0);
    }
  }

  lemma BackBeyondItself(deps: Dependencies, order: seq<string>, at: nat, j: nat, p: string)
    requires IsOrder(deps, order) && j <= at < |order| && order[at] == p
    ensures !Needs(deps, order[j], p)
  {
    if Needs(deps, order[j], p) {
      var k := IndexBefore(deps, order, j, p);
    }
  }

  /** Every member of s depends on some member of s. */
  ghost predicate Stuck(deps: Dependencies, s: set<string>)
  {
    forall p {:trigger NeedsOneOf(deps, p, s)} :: p in s ==> NeedsOneOf(deps, p, s)
  }

  ghost predicate NeedsOneOf(deps: Dependencies, p: string, s: set<string>)
  {
    exists d :: d in s && Needs(deps, p, d)
  }

  lemma {:induction false} WalkFrom(deps: Dependencies, s: set<string>, p: string, n: nat) returns (w: seq<string>)
    requires Stuck(deps, s) && p in s
    ensures IsPath(deps, w) && |w| == n + 1 && w[0] == p && Names(w) <= s
  {
    if n == 0 {
      w := [p];
    } else {
      hide Needs;
      var v := WalkFrom(deps, s, p, n - 1);
      assert v[n - 1] in Names(v);
      assert NeedsOneOf(deps, v[n - 1], s);
      var d :| d in s && Needs(deps, v[n - 1], d);
      w := v + [d];
      NamesAppend(v, d);
      assert w[..n] == v;
    }
  }

  lemma {:induction false} SubsetSize(a: set<string>, b: set<string>)
    requires a <= b
    ensures |a| <= |b|
  {
    if a != {} {
      var x :| x in a;
      SubsetSize(a - {x}, b - {x});
    }
  }

  /** A walk that never leaves a finite set comes back to where it was. */
  lemma CycleOnWalk(deps: Dependencies, s: set<string>, w: seq<string>) returns (i: nat, c: seq<string>)
    requires IsPath(deps, w) && Names(w) <= s && |w| > |s|
    ensures i < |w| && IsCycle(deps, c) && c[0] == w[i]
    ensures IsPath(deps, w[..i + 1]) && IsPath(deps, w[i..])
  {
    hide IsPath, Names, Needs;
    var j;
    i, j := Repeated(w, s);
    PathPiece(deps, w, i, j);
    PathStep(deps, w, j - 1);
    c := w[i..j];
    assert c[0] == w[i] && c[|c| - 1] == w[j - 1];
    PathPiece(deps, w, 0, i + 1);
    PathPiece(deps, w, i, |w|);
    assert w[0..i + 1] == w[..i + 1] && w[i..|w|] == w[i..];
  }

  lemma StuckMeansCycle(deps: Dependencies, s: set<string>)
    requires Stuck(deps, s) && s != {}
    ensures HasCycle(deps)
  {
    var p :| p in s;
    var w := WalkFrom(deps, s, p, |s|);
    var i, c := CycleOnWalk(deps, s, w);
  }

  lemma Repeated(w: seq<string>, s: set<string>) returns (i: nat, j: nat)
    requires Names(w) <= s && |w| > |s|
    ensures i < j < |w| && w[i] == w[j]
  {
    if Distinct(w) {
      SizeOfNames(w);
      SubsetSize(Names(w), s);
    }
    i, j :| 0 <= i < j < |w| && w[i] == w[j];
  }

  // ---------- the packages a reduction keeps ----------

  /** Every member of s is depended on by a member. */
  ghost predicate Supported(deps: Dependencies, s: set<string>)
  {
    s <= deps.Keys && forall p {:trigger NeededByOneOf(deps, p, s)} :: p in s ==> NeededByOneOf(deps, p, s)
  }

  ghost predicate NeededByOneOf(deps: Dependencies, p: string, s: set<string>)
  {
    exists q :: q in s && Needs(deps, q, p)
  }

  ghost predicate IsGreatestSupported(deps: Dependencies, g: set<string>)
  {
    Supported(deps, g) && forall s :: Supported(deps, s) ==> s <= g
  }

  lemma CycleIsSupported(deps: Dependencies, c: seq<string>)
    requires IsCycle(deps, c)
    ensures Supported(deps, Names(c))
  {
    forall p | p in Names(c) ensures p in deps && NeededByOneOf(deps, p, Names(c)) {
      var i :| 0 <= i < |c| && c[i] == p;
      if i > 0 {
        PathStep(deps, c, i - 1);
        assert c[i - 1] in Names(c);
      } else {
        assert c[|c| - 1] in Names(c);
      }
      if i + 1 < |c| {
        PathStep(deps, c, i);
      }
    }
  }

  lemma DependencyIsSupported(deps: Dependencies, s: set<string>, p: string, d: string)
    requires Supported(deps, s) && p in s && Needs(deps, p, d) && d in deps
    ensures Supported(deps, s + {d})
  {
    hide Needs;
    forall x | x in s + {d} ensures NeededByOneOf(deps, x, s + {d}) {
      if x in s {
        assert NeededByOneOf(deps, x, s);
        var q :| q in s && Needs(deps, q, x);
        assert q in s + {d};
      } else {
        assert p in s + {d};
      }
    }
  }

  /** The greatest supported set holds every package on a cycle, is closed under dependencies,
      and is not empty when there is a cycle. */
  lemma GreatestSupportedIsCyclic(deps: Dependencies, g: set<string>)
    requires IsGreatestSupported(deps, g)
    ensures forall c :: IsCycle(deps, c) ==> Names(c) <= g
    ensures Closed(deps) ==> forall p, d :: p in g && Needs(deps, p, d) ==> d in g
    ensures HasCycle(deps) ==> g != {}
  {
    hide IsCycle;
    forall c | IsCycle(deps, c) ensures Names(c) <= g {
      CycleIsSupported(deps, c);
    }
    if c :| IsCycle(deps, c) {
      CycleIsNotEmpty(deps, c);
    }
    if Closed(deps) {
      forall p, d | p in g && Needs(deps, p, d) ensures d in g {
        hide Supported;
        DependencyIsSupported(deps, g, p, d);
      }
    }
  }

  lemma CycleIsNotEmpty(deps: Dependencies, c: seq<string>)
    requires IsCycle(deps, c)
    ensures Names(c) != {}
  {
    assert c[0] in Names(c);
  }

  ghost function Without(deps: Dependencies, done: set<string>): (rest: Dependencies)
    ensures rest.Keys == deps.Keys
  {
    map p | p in deps :: deps[p] - done
  }

  /** Taking what is done out of the dependencies neither adds nor removes cycles. */
  lemma CyclesRemain(deps: Dependencies, order: seq<string>, c: seq<string>)
    requires IsGreedy(deps, order)
    ensures IsCycle(deps, c) <==> IsCycle(Without(deps, Names(order)), c)
  {
    if IsCycle(deps, c) {
      forall i | 0 <= i < |c| ensures c[i] !in order {
        if c[i] in order {
          var at :| 0 <= at < |order| && order[at] == c[i];
          DoneIsNotOnCycle(deps, order, c, i, at);
        }
      }
    }
    SamePaths(deps, order, c, c);
  }

  lemma {:induction false} SamePaths(deps: Dependencies, order: seq<string>, c: seq<string>, w: seq<string>)
    requires w <= c && (IsCycle(deps, c) ==> forall i :: 0 <= i < |c| ==> c[i] !in order)
    ensures var rest := Without(deps, Names(order));
            && (IsPath(rest, w) ==> IsPath(deps, w))
            && (IsCycle(deps, c) && IsPath(deps, w) ==> IsPath(rest, w))
            && (c != [] && Needs(rest, c[|c| - 1], c[0]) ==> Needs(deps, c[|c| - 1], c[0]))
            && (IsCycle(deps, c) ==> Needs(rest, c[|c| - 1], c[0]))
    decreases |w|
  {
    if |w| > 1 {
      SamePaths(deps, order, c, w[..|w| - 1]);
      assert w[|w| - 1] == c[|w| - 1];
    }
  }

  lemma {:induction false} DoneIsNotOnCycle(deps: Dependencies, order: seq<string>, c: seq<string>, k: nat, at: nat)
    requires IsGreedy(deps, order) && IsCycle(deps, c) && k < |c| && at < |order| && order[at] == c[k]
    ensures false
    decreases at
  {
    var next := if k + 1 < |c| then k + 1 else 0;
    if k + 1 < |c| {
      PathStep(deps, c, k);
    }
    assert IsFirstAvailable(deps, Names(order[..at]), order[at]);
    assert c[next] in Names(order[..at]);
    var before :| 0 <= before < at && order[..at][before] == c[next];
    DoneIsNotOnCycle(deps, order, c, next, before);
  }

  // ---------- the workspace ----------

  class Workspace {
    var packages: Dependencies

    /** The filter at the end of get_packages: dependencies on unknown packages are dropped. */
    method RemoveUnknownDependencies()
      modifies this
      ensures packages == map p | p in old(packages) :: old(packages)[p] * old(packages).Keys
      ensures Closed(packages)
    {
      var names := packages.Keys;
      var todo := names;
      while todo != {}
        invariant todo <= names == packages.Keys == old(packages).Keys
        invariant forall p :: p in packages ==>
                    packages[p] == if p in todo then old(packages)[p] else old(packages)[p] * names
        decreases |todo|
      {
        var k :| k in todo;
        packages := packages[k := set d | d in packages[k] && d in names];
        todo := todo - {k};
      }
    }

    /** Takes a package that is done out of every dependency set. */
    method RemoveFromDependencies(name: string)
      modifies this
      ensures packages == Without(old(packages), {name})
    {
      var todo := packages.Keys;
      while todo != {}
        invariant todo <= packages.Keys == old(packages).Keys
        invariant forall p :: p in packages ==>
                    packages[p] == if p in todo then old(packages)[p] else old(packages)[p] - {name}
        decreases |todo|
      {
        var k :| k in todo;
        if name in packages[k] {
          packages := packages[k := packages[k] - {name}];
        }
        todo := todo - {k};
      }
    }

    /** The alphabetically first name without dependencies left. */
    method FirstWithoutDependencies(names: set<string>) returns (first: Option<string>)
      requires names <= packages.Keys
      ensures first.None? ==> forall n :: n in names ==> packages[n] != {}
      ensures first.Some? ==> first.value in names && packages[first.value] == {}
      ensures first.Some? ==> forall n :: n in names && packages[n] == {} ==> n == first.value || Before(first.value, n)
    {
      first := None;
      var todo := names;
      while todo != {}
        invariant todo <= names
        invariant first.None? ==> forall n :: n in names - todo ==> packages[n] != {}
        invariant first.Some? ==> first.value in names && packages[first.value] == {}
        invariant first.Some? ==> forall n :: n in names - todo && packages[n] == {} ==>
                    n == first.value || Before(first.value, n)
        decreases |todo|
      {
        var n :| n in todo;
        if packages[n] == {} && (first.None? || Before(n, first.value)) {
          SmallerComesBeforeAll(n, first);
          first := Some(n);
        } else if first.Some? {
          BeforeIsTotal(n, first.value);
        }
        todo := todo - {n};
      }
    }

    /** Either the alphabetically least order, or the packages of circular dependencies. */
    method OrderPackages() returns (r: Result<seq<string>, set<string>>)
      modifies this
      ensures r.Success? ==> IsGreedy(old(packages), r.value) && IsOrder(old(packages), r.value)
      ensures r.Failure? ==> exists order :: StoppedAt(old(packages), order)
                               && IsGreatestSupported(Without(old(packages), Names(order)), r.error)
    {
      hide Without, Names, IsGreedy, IsFirstAvailable, StoppedAt, IsGreatestSupported, IsOrder;
      ghost var deps := packages;
      var toBeOrdered := packages.Keys;
      var ordered: seq<string> := [];
      NothingDone(deps);
      while toBeOrdered != {}
        invariant toBeOrdered == deps.Keys - Names(ordered)
        invariant packages == Without(deps, Names(ordered)) && IsGreedy(deps, ordered)
        decreases |toBeOrdered|
      {
        var first := FirstWithoutDependencies(toBeOrdered);
        if first.None? {
          NothingFound(deps, ordered);
          ReduceCycleSet();
          return Failure(packages.Keys);
        }
        var name := first.value;
        FoundIsFirst(deps, Names(ordered), name);
        OneMoreDone(deps, ordered, name);
        toBeOrdered := toBeOrdered - {name};
        ordered := ordered + [name];
        RemoveFromDependencies(name);
      }
      GreedyIsOrder(deps, ordered);
      return Success(ordered);
    }

    /** Deletes packages nothing depends on until the dependencies no longer change; what stays is
        the greatest set in which every member is depended on by a member. */
    method ReduceCycleSet()
      modifies this
      ensures IsGreatestSupported(old(packages), packages.Keys)
      ensures forall p :: p in packages ==> packages[p] == old(packages)[p]
    {
      hide Needs;
      ghost var deps := packages;
      var lastDepended: Option<set<string>> := None;
      while packages != map[]
        invariant packages.Keys <= deps.Keys && forall p :: p in packages ==> packages[p] == deps[p]
        invariant forall s :: Supported(deps, s) ==> s <= packages.Keys
        invariant lastDepended.Some? ==> packages.Keys <= lastDepended.value
        invariant lastDepended.Some? ==> Depended(packages) <= lastDepended.value
        decreases lastDepended.None?, if lastDepended.Some? then |lastDepended.value| else 0
      {
        var depended := AllDependencies();
        ghost var before := packages;
        KeepOnly(depended);
        SupportedStays(deps, before, depended);
        if lastDepended.Some? && lastDepended.value != {} {
          if lastDepended.value == depended {
            NothingRemoved(deps, before, packages);
            return;
          }
        }
        if lastDepended.Some? {
          ProperSubsetSize(depended, lastDepended.value);
        }
        lastDepended := Some(depended);
      }
    }

    method AllDependencies() returns (depended: set<string>)
      ensures depended == Depended(packages)
    {
      depended := {};
      var todo := packages.Keys;
      while todo != {}
        invariant todo <= packages.Keys
        invariant depended == set p, d | p in packages && p !in todo && d in packages[p] :: d
        decreases |todo|
      {
        var p :| p in todo;
        depended := depended + packages[p];
        todo := todo - {p};
      }
    }

    method KeepOnly(depended: set<string>)
      modifies this
      ensures packages == map p | p in old(packages) && p in depended :: old(packages)[p]
    {
      var todo := packages.Keys;
      while todo != {}
        invariant todo <= packages.Keys <= old(packages).Keys
        invariant forall p :: p in old(packages) ==> (p in packages <==> p in todo || p in depended)
        invariant forall p :: p in packages ==> packages[p] == old(packages)[p]
        decreases |todo|
      {
        var name :| name in todo;
        if name !in depended {
          packages := packages - {name};
        }
        todo := todo - {name};
      }
    }
  }

  ghost function Depended(packages: Dependencies): set<string>
  {
    set p, d | p in packages && d in packages[p] :: d
  }

  /** order_packages gives up here: some packages are left, and none of them is available. */
  ghost predicate StoppedAt(deps: Dependencies, order: seq<string>)
  {
    && IsGreedy(deps, order) && !(deps.Keys <= Names(order))
    && forall n :: !Available(deps, Names(order), n)
  }

  lemma NothingDone(deps: Dependencies)
    ensures Names([]) == {} && Without(deps, Names([])) == deps && IsGreedy(deps, [])
  {
    assert forall p :: p in deps ==> deps[p] - Names([]) == deps[p];
  }

  lemma WithoutTwice(deps: Dependencies, a: set<string>, b: set<string>)
    ensures Without(deps, a + b) == Without(Without(deps, a), b)
  {
    assert forall p :: p in deps ==> deps[p] - (a + b) == (deps[p] - a) - b;
  }

  lemma FoundIsFirst(deps: Dependencies, done: set<string>, first: string)
    requires first in deps.Keys - done && Without(deps, done)[first] == {}
    requires forall n :: n in deps.Keys - done && Without(deps, done)[n] == {} ==> n == first || Before(first, n)
    ensures IsFirstAvailable(deps, done, first)
  {
    forall n | n in deps ensures deps[n] <= done <==> Without(deps, done)[n] == {} {
      NothingLeft(deps[n], done);
    }
  }

  lemma NothingLeft(a: set<string>, b: set<string>)
    ensures a - b == {} <==> a <= b
  {
    assert a <= b + (a - b);
  }

  lemma NothingFound(deps: Dependencies, order: seq<string>)
    requires IsGreedy(deps, order) && deps.Keys - Names(order) != {}
    requires forall n :: n in deps.Keys - Names(order) ==> Without(deps, Names(order))[n] != {}
    ensures StoppedAt(deps, order)
  {
    forall n | n in deps && n !in Names(order) ensures !(deps[n] <= Names(order)) {
      NothingLeft(deps[n], Names(order));
    }
  }

  lemma OneMoreDone(deps: Dependencies, ordered: seq<string>, name: string)
    requires IsGreedy(deps, ordered) && IsFirstAvailable(deps, Names(ordered), name)
    ensures IsGreedy(deps, ordered + [name]) && Names(ordered + [name]) == Names(ordered) + {name}
    ensures Without(deps, Names(ordered + [name])) == Without(Without(deps, Names(ordered)), {name})
  {
    NamesAppend(ordered, name);
    WithoutTwice(deps, Names(ordered), {name});
    var o := ordered + [name];
    forall i | 0 <= i < |o| ensures IsFirstAvailable(deps, Names(o[..i]), o[i]) {
      assert o[..i] == ordered[..i];
      assert i == |ordered| ==> ordered[..i] == ordered;
    }
  }

  lemma SmallerComesBeforeAll(n: string, first: Option<string>)
    requires first.None? || Before(n, first.value)
    ensures first.Some? ==> forall m :: Before(first.value, m) ==> Before(n, m)
  {
    if first.Some? {
      forall m | Before(first.value, m) ensures Before(n, m) {
        BeforeIsTransitive(n, first.value, m);
      }
    }
  }

  lemma ProperSubsetSize(a: set<string>, b: set<string>)
    requires a <= b
    ensures |a| <= |b| && (a != b ==> |a| < |b|)
  {
    SubsetSize(a, b);
    if a != b {
      var x :| x in b && x !in a;
      SubsetSize(a, b - {x});
    }
  }

  lemma SupportedStays(deps: Dependencies, before: Dependencies, depended: set<string>)
    requires before.Keys <= deps.Keys && forall p :: p in before ==> before[p] == deps[p]
    requires depended == Depended(before)
    requires forall s :: Supported(deps, s) ==> s <= before.Keys
    ensures forall s :: Supported(deps, s) ==> s <= depended
  {
    forall s, p | Supported(deps, s) && p in s ensures p in depended {
      assert NeededByOneOf(deps, p, s);
      var q :| q in s && Needs(deps, q, p);
      assert q in before;
    }
  }

  lemma NothingRemoved(deps: Dependencies, before: Dependencies, after: Dependencies)
    requires before.Keys <= deps.Keys && forall p :: p in before ==> before[p] == deps[p]
    requires before.Keys <= Depended(before)
    requires after == map p | p in before && p in Depended(before) :: before[p]
    ensures after == before && Supported(deps, after.Keys)
  {
    assert after.Keys == before.Keys && after == before;
    forall p | p in after.Keys ensures NeededByOneOf(deps, p, after.Keys) {
      var q :| q in before && p in before[q];
      assert Needs(deps, q, p);
    }
  }

  // ---------- what is reported ----------

  /** p needs q, directly or not, or is q. */
  ghost predicate Reaches(deps: Dependencies, p: string, q: string)
  {
    exists w :: w != [] && IsPath(deps, w) && w[0] == p && w[|w| - 1] == q
  }

  /** A cycle leads to p, and p leads to a cycle; the two may be the same. */
  ghost predicate BetweenCycles(deps: Dependencies, p: string)
  {
    && (exists c :: IsCycle(deps, c) && Reaches(deps, c[0], p))
    && (exists c :: IsCycle(deps, c) && Reaches(deps, p, c[0]))
  }

  lemma {:induction false} PathPrepend(deps: Dependencies, p: string, w: seq<string>)
    requires w != [] && IsPath(deps, w) && Needs(deps, p, w[0])
    ensures IsPath(deps, [p] + w)
  {
    if |w| > 1 {
      PathPrepend(deps, p, w[..|w| - 1]);
      assert ([p] + w)[..|w|] == [p] + w[..|w| - 1];
    } else {
      assert ([p] + w)[..|w|] == [p];
    }
  }

  /** What is done needs only what is done. */
  lemma {:induction false} DoneReachesDone(deps: Dependencies, order: seq<string>, w: seq<string>)
    requires IsGreedy(deps, order) && w != [] && IsPath(deps, w) && w[0] in order
    ensures w[|w| - 1] in order
  {
    if |w| > 1 {
      var v := w[..|w| - 1];
      DoneReachesDone(deps, order, v);
      var at :| 0 <= at < |order| && order[at] == v[|v| - 1];
      assert IsFirstAvailable(deps, Names(order[..at]), order[at]);
      assert w[|w| - 1] in Names(order[..at]);
    }
  }

  lemma BetweenIsNotDone(deps: Dependencies, order: seq<string>, p: string)
    requires IsGreedy(deps, order) && BetweenCycles(deps, p)
    ensures p !in order && p in deps
  {
    var c :| IsCycle(deps, c) && Reaches(deps, p, c[0]);
    var w :| w != [] && IsPath(deps, w) && w[0] == p && w[|w| - 1] == c[0];
    if p in order {
      DoneReachesDone(deps, order, w);
      var at :| 0 <= at < |order| && order[at] == c[0];
      DoneIsNotOnCycle(deps, order, c, 0, at);
    }
    if |w| > 1 {
      PathStep(deps, w, 0);
    } else {
      PathStarts(deps, c);
    }
  }

  /** What lies between cycles is needed by something that does. */
  lemma BetweenIsNeeded(deps: Dependencies, p: string) returns (q: string)
    requires BetweenCycles(deps, p)
    ensures BetweenCycles(deps, q) && Needs(deps, q, p)
  {
    hide Needs, IsPath, Reaches;
    var c :| IsCycle(deps, c) && Reaches(deps, c[0], p);
    var e :| IsCycle(deps, e) && Reaches(deps, p, e[0]);
    q := StepBack(deps, c, p);
    StepForward(deps, q, p, e[0]);
  }

  /** Whatever is reached from a cycle is needed by something reached from it. */
  lemma StepBack(deps: Dependencies, c: seq<string>, p: string) returns (q: string)
    requires IsCycle(deps, c) && Reaches(deps, c[0], p)
    ensures Reaches(deps, c[0], q) && Needs(deps, q, p)
  {
    hide Needs;
    var w :| w != [] && IsPath(deps, w) && w[0] == c[0] && w[|w| - 1] == p;
    var to := if |w| == 1 then c else w[..|w| - 1];
    q := to[|to| - 1];
    assert to[0] == c[0];
  }

  lemma StepForward(deps: Dependencies, q: string, p: string, e: string)
    requires Needs(deps, q, p) && Reaches(deps, p, e)
    ensures Reaches(deps, q, e)
  {
    hide Needs, IsPath;
    var v :| v != [] && IsPath(deps, v) && v[0] == p && v[|v| - 1] == e;
    PathPrepend(deps, q, v);
    assert ([q] + v)[|v|] == e;
  }

  lemma BetweenIsSupported(deps: Dependencies, order: seq<string>, s: set<string>)
    requires IsGreedy(deps, order) && forall p :: p in s <==> BetweenCycles(deps, p)
    ensures Supported(Without(deps, Names(order)), s)
  {
    hide BetweenCycles, IsGreedy;
    var rest := Without(deps, Names(order));
    forall p | p in s ensures p in deps && NeededByOneOf(rest, p, s) {
      BetweenIsNotDone(deps, order, p);
      var q := BetweenIsNeeded(deps, p);
      assert Needs(rest, q, p);
    }
  }

  lemma {:induction false} WalkTo(deps: Dependencies, s: set<string>, p: string, n: nat) returns (w: seq<string>)
    requires Supported(deps, s) && p in s
    ensures IsPath(deps, w) && |w| == n + 1 && w[n] == p && Names(w) <= s
    decreases n
  {
    if n == 0 {
      w := [p];
    } else {
      hide Needs;
      assert NeededByOneOf(deps, p, s);
      var q :| q in s && Needs(deps, q, p);
      var v := WalkTo(deps, s, q, n - 1);
      w := v + [p];
      NamesAppend(v, p);
      assert w[..n] == v;
    }
  }

  lemma {:induction false} PathInWhole(deps: Dependencies, done: set<string>, w: seq<string>)
    requires IsPath(Without(deps, done), w)
    ensures IsPath(deps, w)
  {
    if |w| > 1 {
      PathInWhole(deps, done, w[..|w| - 1]);
    }
  }

  lemma SupportedIsBetween(deps: Dependencies, order: seq<string>, s: set<string>, p: string)
    requires Closed(deps) && StoppedAt(deps, order) && Supported(Without(deps, Names(order)), s) && p in s
    ensures BetweenCycles(deps, p)
  {
    var rest, left := Without(deps, Names(order)), deps.Keys - Names(order);
    assert NeededByOneOf(rest, p, s);
    assert p in left;
    LeftIsStuck(deps, order);
    hide IsPath, Needs, Names, Supported, StoppedAt, Without, Closed, Stuck;
    var w := WalkTo(rest, s, p, |s|);
    PathInWhole(deps, Names(order), w);
    var i, c := CycleOnWalk(deps, s, w);
    assert w[i..][0] == c[0] && w[i..][|w[i..]| - 1] == p;
    assert Reaches(deps, c[0], p);
    var v := WalkFrom(deps, left, p, |left|);
    var k, e := CycleOnWalk(deps, left, v);
    assert v[..k + 1][0] == p && v[..k + 1][k] == e[0];
    assert Reaches(deps, p, e[0]);
  }

  /** The reported packages are exactly those between cycles. */
  lemma ReportedAreBetween(deps: Dependencies, order: seq<string>, g: set<string>)
    requires Closed(deps) && StoppedAt(deps, order) && IsGreatestSupported(Without(deps, Names(order)), g)
    ensures forall p :: p in g <==> BetweenCycles(deps, p)
  {
    hide BetweenCycles;
    var s := set p | p in deps && BetweenCycles(deps, p);
    forall p ensures p in s <==> BetweenCycles(deps, p) {
      if BetweenCycles(deps, p) {
        BetweenIsNotDone(deps, order, p);
      }
    }
    BetweenIsSupported(deps, order, s);
    forall p | p in g ensures BetweenCycles(deps, p) {
      SupportedIsBetween(deps, order, g, p);
    }
  }

  // ---------- order_packages as a whole ----------

  lemma LeftIsStuck(deps: Dependencies, order: seq<string>)
    requires Closed(deps) && StoppedAt(deps, order)
    ensures Stuck(deps, deps.Keys - Names(order))
  {
    var left := deps.Keys - Names(order);
    forall p | p in left ensures NeedsOneOf(deps, p, left) {
      assert !Available(deps, Names(order), p);
      var d :| d in deps[p] && d !in Names(order);
      assert Needs(deps, p, d);
    }
  }

  /** When the loop gives up there is a cycle, provided all dependencies are known packages. */
  lemma StoppedMeansCycle(deps: Dependencies, order: seq<string>)
    requires Closed(deps) && StoppedAt(deps, order)
    ensures HasCycle(deps)
  {
    NothingLeft(deps.Keys, Names(order));
    LeftIsStuck(deps, order);
    StuckMeansCycle(deps, deps.Keys - Names(order));
  }

  /** order_packages on known dependencies: it fails exactly when there is a cycle; otherwise it
      returns the alphabetically least of all orders; and it reports exactly the packages that a
      cycle leads to and that lead to a cycle, so all that are on one. */
  method Order(packages: Dependencies) returns (r: Result<seq<string>, set<string>>)
    requires Closed(packages)
    ensures r.Failure? <==> HasCycle(packages)
    ensures r.Success? ==>
              IsOrder(packages, r.value) && forall other :: IsOrder(packages, other) ==> NotAfter(r.value, other)
    ensures r.Success? ==> forall other :: IsOrder(packages, other) && other != r.value ==>
              exists k, i :: 0 <= k < |r.value| && k < |other| && r.value[..k] == other[..k]
                && 0 <= i <= |r.value[k]| && i < |other[k]| && r.value[k][..i] == other[k][..i]
                && (i == |r.value[k]| || r.value[k][i] < other[k][i])
    ensures r.Failure? ==> r.error != {} && forall c :: IsCycle(packages, c) ==> Names(c) <= r.error
    ensures r.Failure? ==> forall p :: p in r.error <==> BetweenCycles(packages, p)
  {
    hide BetweenCycles, IsOrder, IsGreedy, IsCycle, IsGreatestSupported, StoppedAt, Without, NotAfter, Closed, Names;
    var w := new Workspace;
    w.packages := packages;
    r := w.OrderPackages();
    if r.Success? {
      OrderExcludesCycles(packages, r.value);
      forall other | IsOrder(packages, other) ensures NotAfter(r.value, other) {
        GreedyIsLeast(packages, r.value, other);
      }
      forall other | IsOrder(packages, other) && other != r.value
        ensures exists k, i :: 0 <= k < |r.value| && k < |other| && r.value[..k] == other[..k]
                  && 0 <= i <= |r.value[k]| && i < |other[k]| && r.value[k][..i] == other[k][..i]
                  && (i == |r.value[k]| || r.value[k][i] < other[k][i])
      {
        var k, i := FirstSmaller(r.value, other);
      }
    } else {
      ghost var order :| StoppedAt(packages, order) && IsGreatestSupported(Without(packages, Names(order)), r.error);
      ReportedPackages(packages, order, r.error);
      ReportedAreBetween(packages, order, r.error);
    }
  }

  lemma ReportedPackages(deps: Dependencies, order: seq<string>, g: set<string>)
    requires Closed(deps) && StoppedAt(deps, order) && IsGreatestSupported(Without(deps, Names(order)), g)
    ensures HasCycle(deps) && g != {} && forall c :: IsCycle(deps, c) ==> Names(c) <= g
    ensures forall p, d :: p in g && Needs(deps, p, d) ==> d in g || d in Names(order)
  {
    var rest := Without(deps, Names(order));
    StoppedMeansCycle(deps, order);
    GreatestSupportedIsCyclic(rest, g);
    forall c | IsCycle(deps, c) ensures IsCycle(rest, c) {
      CyclesRemain(deps, order, c);
    }
    forall p, d | p in g && Needs(deps, p, d) ensures d in g || d in Names(order) {
      assert d !in Names(order) ==> Needs(rest, p, d);
    }
  }
}
