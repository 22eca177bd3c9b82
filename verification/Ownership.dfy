/**
 Who owns the factories of class_loader, at every state of every run: what keeps ownership
 consistent, what breaks it, and what the counts of the loaders are.
 */
module Ownership {
  import opened ClassLoader

  // ---------- ownership ----------

  ghost predicate Owns(st: State, l: nat, k: Key)
  {
    k in st.factories && st.factories[k].IsOwnedBy(l)
  }

  /** A loader owns its library's factories exactly while its count is positive, and then all of
      them; a library is in the open list exactly while somebody owns a factory of it; all factories
      of a library have the same owners; and no factory object is both filed and in the graveyard. */
  ghost predicate OwnershipHolds(st: State)
  {
    OwnsIffLoaded(st) && OwnsAllOrNone(st) && OpenIffOwned(st) && FactoriesAgree(st)
  }

  ghost predicate OwnsIffLoaded(st: State)
  {
    forall l :: l in st.loaders ==>
      (st.loaders[l].loadCount > 0 <==> exists k :: Owns(st, l, k) && st.factories[k].library == st.loaders[l].path)
  }

  ghost predicate OwnsAllOrNone(st: State)
  {
    forall l, k :: l in st.loaders && k in st.factories && st.factories[k].library == st.loaders[l].path ==>
      (Owns(st, l, k) <==> st.loaders[l].loadCount > 0)
  }

  ghost predicate OpenIffOwned(st: State)
  {
    forall library :: library in st.open <==> exists l, k :: Owns(st, l, k) && st.factories[k].library == library
  }

  ghost predicate FactoriesAgree(st: State)
  {
    && (forall k, k' :: k in st.factories && k' in st.factories ==>
          st.factories[k].library == st.factories[k'].library ==>
          Members(st.factories[k].owners) == Members(st.factories[k'].owners))
    && (forall k, g :: k in st.factories && g in st.graveyard ==> st.factories[k].id != g.id)
  }

  /** No library has lost its handle, and every loader with loads left is bound. */
  ghost predicate NoneAstray(st: State)
  {
    st.stale == {} && forall l :: l in st.loaders && st.loaders[l].loadCount > 0 ==> l in st.bound
  }

  lemma OwnershipIfNoneAstray(st: State, home: Key -> string)
    requires Valid(st, home)
    ensures OwnershipHolds(st) <==> NoneAstray(st)
  {
    hide Valid, OwnershipHolds, NoneAstray;
    if NoneAstray(st) {
      NoneAstrayMeansOwnership(st, home);
    }
    if OwnershipHolds(st) {
      OwnershipMeansNoneAstray(st, home);
    }
  }

  lemma OwnershipMeansNoneAstray(st: State, home: Key -> string)
    requires Valid(st, home) && OwnershipHolds(st)
    ensures NoneAstray(st)
  {
    hide Valid;
    forall l | l in st.loaders && st.loaders[l].loadCount > 0 ensures l in st.bound {
      var k :| Owns(st, l, k) && st.factories[k].library == st.loaders[l].path;
      OwnerIsBound(st, home, l, k);
    }
    forall library ensures library !in st.stale {
      if library in st.stale {
        StaleIsOpen(st, home, library);
      }
    }
  }

  lemma StaleIsOpen(st: State, home: Key -> string, library: string)
    requires Valid(st, home) && library in st.stale
    ensures library in st.open && forall k :: k in st.factories ==> st.factories[k].library != library
  {
    assert library !in Live(st);
    assert !HasFactory(st.factories, library);
  }

  lemma NoneAstrayMeansOwnership(st: State, home: Key -> string)
    requires Valid(st, home) && NoneAstray(st)
    ensures OwnershipHolds(st)
  {
    AllOwnIfLoaded(st, home);
    OpenAreOwned(st, home);
    SameOwners(st, home);
    hide OwnsIffLoaded, OwnsAllOrNone, OpenIffOwned, FactoriesAgree, Valid, NoneAstray;
  }

  lemma AllOwnIfLoaded(st: State, home: Key -> string)
    requires Valid(st, home) && NoneAstray(st)
    ensures OwnsIffLoaded(st) && OwnsAllOrNone(st)
  {
    hide Valid, NoneAstray;
    forall l | l in st.loaders
      ensures st.loaders[l].loadCount > 0 <==>
                exists k :: Owns(st, l, k) && st.factories[k].library == st.loaders[l].path
    {
      OwnsIfLoaded(st, home, l);
    }
    assert OwnsIffLoaded(st);
    hide OwnsIffLoaded;
    forall l, k | l in st.loaders && k in st.factories && st.factories[k].library == st.loaders[l].path
      ensures Owns(st, l, k) <==> st.loaders[l].loadCount > 0
    {
      OwnerIsBound(st, home, l, k);
      OwnsIfLoaded(st, home, l);
    }
  }

  lemma OpenAreOwned(st: State, home: Key -> string)
    requires Valid(st, home) && NoneAstray(st)
    ensures OpenIffOwned(st)
  {
    assert Live(st) == st.open;
    hide Valid, NoneAstray, Live;
    forall library ensures library in st.open <==> exists l, k :: Owns(st, l, k) && st.factories[k].library == library {
      LiveMeansOwned(st, home, library);
    }
  }

  lemma OwnsIfLoaded(st: State, home: Key -> string, l: nat)
    requires Valid(st, home) && NoneAstray(st) && l in st.loaders
    ensures l in st.bound <==> st.loaders[l].loadCount > 0
    ensures st.loaders[l].loadCount > 0 <==>
              exists k :: Owns(st, l, k) && st.factories[k].library == st.loaders[l].path
  {
    BoundHasLoads(st, home);
    hide Valid;
    if l in st.bound {
      var k := FactoryOfBound(st, home, l);
      assert Owns(st, l, k);
    } else {
      forall k | k in st.factories && st.factories[k].library == st.loaders[l].path ensures !Owns(st, l, k) {
        OwnerIsBound(st, home, l, k);
      }
    }
  }

  lemma BoundHasLoads(st: State, home: Key -> string)
    requires Valid(st, home)
    ensures forall l :: l in st.bound ==> l in st.loaders && st.loaders[l].loadCount > 0
  {
  }

  lemma OwnerIsBound(st: State, home: Key -> string, l: nat, k: Key)
    requires Valid(st, home) && l in st.loaders && k in st.factories && st.factories[k].library == st.loaders[l].path
    ensures Owns(st, l, k) <==> l in st.bound
  {
    hide OpenInOrder, GraveyardInOrder, InOnePlace;
    var f := st.factories[k];
    assert FactoryInOrder(k, f, home, Holders(st.loaders, st.bound, f.library), st.nextId);
    assert l in f.owners <==> l in Members(f.owners);
  }

  lemma FactoryOfBound(st: State, home: Key -> string, l: nat) returns (k: Key)
    requires Valid(st, home) && l in st.bound
    ensures l in st.loaders && Owns(st, l, k) && st.factories[k].library == st.loaders[l].path
  {
    hide GraveyardInOrder, InOnePlace, FactoriesInOrder;
    k :| k in st.factories && st.factories[k].library == st.loaders[l].path;
    OwnerIsBound(st, home, l, k);
  }

  lemma LiveMeansOwned(st: State, home: Key -> string, library: string)
    requires Valid(st, home)
    ensures library in Live(st) <==> exists l, k :: Owns(st, l, k) && st.factories[k].library == library
  {
    hide GraveyardInOrder, InOnePlace;
    if library in Live(st) {
      var k :| k in st.factories && st.factories[k].library == library;
      assert FactoryInOrder(k, st.factories[k], home, Holders(st.loaders, st.bound, library), st.nextId);
      var l :| l in Members(st.factories[k].owners);
      assert Owns(st, l, k);
    }
  }

  lemma SameOwners(st: State, home: Key -> string)
    requires Valid(st, home)
    ensures FactoriesAgree(st)
  {
    hide GraveyardInOrder, OpenInOrder, Members, Holders;
  }

  // ---------- what breaks ownership ----------

  /** Where ownership is in order, an operation keeps it so if and only if it does not throw: it is
      no load of a library that is not open and cannot be opened, and no unload that takes back the
      last load of an open library's only holder when that library cannot be closed. */
  lemma KeptUnlessThrown(st: State, home: Key -> string, op: Op)
    requires Valid(st, home) && OwnershipHolds(st) && Allowed(st, home, op)
    ensures OwnershipHolds(Next(st, op)) <==> !Fails(st, op)
  {
    hide Valid, OwnershipHolds, NoneAstray, Next;
    NextKeepsValid(st, home, op);
    OwnershipIfNoneAstray(st, home);
    OwnershipIfNoneAstray(Next(st, op), home);
    AstrayIfThrown(st, home, op);
  }

  lemma AstrayIfThrown(st: State, home: Key -> string, op: Op)
    requires Valid(st, home) && NoneAstray(st) && Allowed(st, home, op)
    ensures NoneAstray(Next(st, op)) <==> !Fails(st, op)
  {
    hide FactoriesInOrder, GraveyardInOrder, InOnePlace, HasFactory, Released, Dead;
    var st' := Next(st, op);
    if Fails(st, op) {
      if op.LoadRefused? {
        assert op.l in st'.loaders && op.l !in st'.bound;
      } else {
        assert st.loaders[op.l].path in st'.stale;
      }
    }
  }

  /** The other holders of a library are the loaders with loads left on it. */
  lemma ClosesIfLastHolder(st: State, home: Key -> string, l: nat, closes: bool)
    requires Valid(st, home) && OwnershipHolds(st) && l in st.loaders
    ensures CloseFails(st, l, closes) <==>
            && !closes && LetsGo(st, l) && st.loaders[l].path in st.open
            && forall m :: m in st.loaders && m != l && st.loaders[m].path == st.loaders[l].path ==>
                st.loaders[m].loadCount == 0
  {
    OwnershipIfNoneAstray(st, home);
    BoundHasLoads(st, home);
    hide Valid, OwnershipHolds, Released, HasFactory, Holders;
    var library := st.loaders[l].path;
    if LetsGo(st, l) {
      LeftIfHeld(st, home, l);
      forall m ensures m in Holders(CountDown(st.loaders, l), st.bound - {l}, library) <==>
                       m in st.loaders && m != l && st.loaders[m].path == library && st.loaders[m].loadCount > 0 {
        OtherHolder(st, l, m);
      }
    }
  }

  lemma OtherHolder(st: State, l: nat, m: nat)
    requires l in st.loaders
    ensures m in Holders(CountDown(st.loaders, l), st.bound - {l}, st.loaders[l].path) <==>
            m in st.bound && m != l && m in st.loaders && st.loaders[m].path == st.loaders[l].path
  {
  }

  /** A load that fails has counted already: the loader has a positive count and owns nothing. */
  lemma FailedLoadBreaksOwnership(st: State, home: Key -> string, l: nat)
    requires Valid(st, home) && l in st.loaders && Fails(st, LoadRefused(l))
    ensures var st' := Next(st, LoadRefused(l));
            && st'.loaders[l].loadCount > 0
            && (forall k :: !(Owns(st', l, k) && st'.factories[k].library == st'.loaders[l].path))
            && !OwnershipHolds(st')
  {
    var st' := Next(st, LoadRefused(l));
    NotFiled(st, home, st.loaders[l].path);
    forall k | k in st.factories ensures st.factories[k].library != st.loaders[l].path {
      assert !HasFactory(st.factories, st.loaders[l].path);
    }
    hide Valid;
    assert l in st'.loaders;
  }

  /** An unload after a failed load takes back all it did. */
  lemma UnloadMends(st: State, home: Key -> string, l: nat, destroyed: bool, closes: bool)
    requires Valid(st, home) && l in st.loaders && Fails(st, LoadRefused(l)) && st.loaders[l].pluginCount == 0
    ensures Next(Next(st, LoadRefused(l)), DoUnload(l, destroyed, closes)) == st
  {
    hide FactoriesInOrder, GraveyardInOrder, InOnePlace, OpenInOrder, HasFactory, Released, Dead;
    var st' := Next(st, LoadRefused(l));
    assert l !in st.bound && st.bound - {l} == st.bound;
    assert CountDown(st'.loaders, l)[l] == st.loaders[l];
    assert CountDown(st'.loaders, l) == st.loaders;
  }

  /** A close that fails has released the factories: the library is open, nobody owns a factory of
      it, and no operation changes that. */
  lemma FailedCloseIsForGood(st: State, home: Key -> string, library: string, op: Op)
    requires Valid(st, home) && Allowed(st, home, op)
    requires library in st.stale || (op.DoUnload? && Fails(st, op) && st.loaders[op.l].path == library)
    ensures var st' := Next(st, op);
            && library in st'.stale && library in st'.open && !OwnershipHolds(st')
            && forall k :: k in st'.factories ==> st'.factories[k].library != library
  {
    NextKeepsValid(st, home, op);
    var st' := Next(st, op);
    StaysStale(st, home, library, op);
    hide Valid, OwnershipHolds, Next;
    StaleIsOpen(st', home, library);
    OwnershipIfNoneAstray(st', home);
  }

  lemma StaysStale(st: State, home: Key -> string, library: string, op: Op)
    requires Valid(st, home) && Allowed(st, home, op)
    ensures library in Next(st, op).stale <==>
            library in st.stale || (op.DoUnload? && Fails(st, op) && st.loaders[op.l].path == library)
  {
    hide FactoriesInOrder, GraveyardInOrder, InOnePlace, HasFactory, Released, Dead;
  }

  // ---------- whole runs ----------

  /** None of the first n operations failed. */
  ghost predicate NoneFailed(states: seq<State>, home: Key -> string, ops: seq<Op>, n: nat)
    requires IsRun(states, home, ops) && n <= |ops|
  {
    forall i :: 0 <= i < n ==> !Fails(states[i], ops[i])
  }

  /** In every run without failures ownership is consistent. */
  lemma {:induction false} OwnershipIsConsistent(states: seq<State>, home: Key -> string, ops: seq<Op>, i: nat)
    requires IsRun(states, home, ops) && i < |states| && NoneFailed(states, home, ops, i)
    ensures OwnershipHolds(states[i])
  {
    hide Valid, OwnershipHolds;
    RunIsValid(states, home, ops, i);
    if i > 0 {
      OwnershipIsConsistent(states, home, ops, i - 1);
      RunIsValid(states, home, ops, i - 1);
      assert states[i - 1 + 1] == Next(states[i - 1], ops[i - 1]) && !Fails(states[i - 1], ops[i - 1]);
      KeptUnlessThrown(states[i - 1], home, ops[i - 1]);
    } else {
      OwnershipIfNoneAstray(states[0], home);
    }
  }

  /** The first failure is where ownership breaks. */
  lemma FirstFailureBreaksOwnership(states: seq<State>, home: Key -> string, ops: seq<Op>, i: nat)
    requires IsRun(states, home, ops) && i < |ops| && NoneFailed(states, home, ops, i)
    ensures OwnershipHolds(states[i])
    ensures OwnershipHolds(states[i + 1]) <==> !Fails(states[i], ops[i])
  {
    hide Valid, OwnershipHolds;
    OwnershipIsConsistent(states, home, ops, i);
    RunIsValid(states, home, ops, i);
    KeptUnlessThrown(states[i], home, ops[i]);
  }

  ghost predicate HasLoads(st: State, l: nat)
  {
    l in st.loaders && st.loaders[l].loadCount > 0
  }

  /** A load of l that does not throw, of a library with a path and not without its handle. */
  ghost predicate Binds(st: State, op: Op, l: nat)
    requires op.NewLoader? || op.l in st.loaders
  {
    && (op.DoLoad? || op.LoadRefused?) && op.l == l && !Fails(st, op)
    && st.loaders[l].path != "" && st.loaders[l].path !in st.stale
  }

  /** One of the first n operations was such a load, and the count has been positive since. */
  ghost predicate LoadedSince(states: seq<State>, home: Key -> string, ops: seq<Op>, n: nat, l: nat)
    requires IsRun(states, home, ops) && n <= |ops|
  {
    exists i :: 0 <= i < n && Binds(states[i], ops[i], l) && forall j :: i < j <= n ==> HasLoads(states[j], l)
  }

  /** A close of the library was among the first n operations, and failed. */
  ghost predicate CloseFailed(states: seq<State>, home: Key -> string, ops: seq<Op>, n: nat, library: string)
    requires IsRun(states, home, ops) && n <= |ops|
  {
    exists i :: 0 <= i < n && ops[i].DoUnload? && Fails(states[i], ops[i])
        && states[i].loaders[ops[i].l].path == library
  }

  lemma LoadedStep(states: seq<State>, home: Key -> string, ops: seq<Op>, n: nat, l: nat)
    requires IsRun(states, home, ops) && n < |ops|
    ensures LoadedSince(states, home, ops, n + 1, l) <==>
            HasLoads(states[n + 1], l) && (Binds(states[n], ops[n], l) || LoadedSince(states, home, ops, n, l))
  {
    hide Binds, HasLoads, Next, Valid, Fails, MayRegister;
    if LoadedSince(states, home, ops, n + 1, l) {
      var i :| 0 <= i < n + 1 && Binds(states[i], ops[i], l) && forall j :: i < j <= n + 1 ==> HasLoads(states[j], l);
      assert HasLoads(states[n + 1], l);
      if i < n {
        assert Binds(states[i], ops[i], l) && forall j :: i < j <= n ==> HasLoads(states[j], l);
      }
    }
  }

  lemma BindStep(st: State, home: Key -> string, op: Op, l: nat)
    requires Valid(st, home) && Allowed(st, home, op)
    ensures l in Next(st, op).bound <==> HasLoads(Next(st, op), l) && (Binds(st, op, l) || l in st.bound)
  {
    StaleAreOpen(st, home);
    hide FactoriesInOrder, GraveyardInOrder, InOnePlace, OpenInOrder, HasFactory, Released, Dead;
    match op {
      case DoUnload(m, destroyed, closes) =>
        UnloadCounts(st, m, destroyed, closes);
        hide Unload;
        assert l in st.bound ==> HasLoads(st, l);
      case _ =>
    }
  }

  lemma UnloadCounts(st: State, l: nat, destroyed: bool, closes: bool)
    requires l in st.loaders
    ensures var st' := Unload(st, l, destroyed, closes);
            && st'.bound == (if LetsGo(st, l) then st.bound - {l} else st.bound)
            && st'.loaders == if st.loaders[l].path == "" || st.loaders[l].pluginCount > 0 then st.loaders
                              else CountDown(st.loaders, l)
  {
    hide Released, Dead, HasFactory, CountDown, CloseFails;
  }

  lemma {:induction false} BoundIsLoadedSince(states: seq<State>, home: Key -> string, ops: seq<Op>, n: nat, l: nat)
    requires IsRun(states, home, ops) && n <= |ops|
    ensures l in states[n].bound <==> LoadedSince(states, home, ops, n, l)
  {
    hide Valid, Binds, HasLoads, LoadedSince;
    if n > 0 {
      BoundIsLoadedSince(states, home, ops, n - 1, l);
      RunIsValid(states, home, ops, n - 1);
      assert states[n - 1 + 1] == Next(states[n - 1], ops[n - 1]);
      LoadedStep(states, home, ops, n - 1, l);
      BindStep(states[n - 1], home, ops[n - 1], l);
    } else {
      NothingYet(states, home, ops, l, "");
    }
  }

  lemma NothingYet(states: seq<State>, home: Key -> string, ops: seq<Op>, l: nat, library: string)
    requires IsRun(states, home, ops)
    ensures !LoadedSince(states, home, ops, 0, l) && !CloseFailed(states, home, ops, 0, library)
  {
  }

  lemma {:induction false} StaleIsCloseFailed(states: seq<State>, home: Key -> string, ops: seq<Op>, n: nat,
                                              library: string)
    requires IsRun(states, home, ops) && n <= |ops|
    ensures library in states[n].stale <==> CloseFailed(states, home, ops, n, library)
  {
    hide Valid;
    if n > 0 {
      StaleIsCloseFailed(states, home, ops, n - 1, library);
      RunIsValid(states, home, ops, n - 1);
      assert states[n - 1 + 1] == Next(states[n - 1], ops[n - 1]);
      hide Next, Fails;
      StaysStale(states[n - 1], home, library, ops[n - 1]);
      if CloseFailed(states, home, ops, n, library) {
        var i :| 0 <= i < n && ops[i].DoUnload? && Fails(states[i], ops[i])
            && states[i].loaders[ops[i].l].path == library;
      }
    }
  }

  /** In every run, failures included: the owners of a filed factory are exactly the loaders of its
      library with a load that bound them since their count was last zero. */
  lemma OwnersHaveLoaded(states: seq<State>, home: Key -> string, ops: seq<Op>, n: nat, l: nat, k: Key)
    requires IsRun(states, home, ops) && n <= |ops| && l in states[n].loaders && k in states[n].factories
    requires states[n].factories[k].library == states[n].loaders[l].path
    ensures Owns(states[n], l, k) <==> LoadedSince(states, home, ops, n, l)
  {
    hide Valid, LoadedSince;
    RunIsValid(states, home, ops, n);
    OwnerIsBound(states[n], home, l, k);
    BoundIsLoadedSince(states, home, ops, n, l);
  }

  /** At every state of every run: ownership is consistent if and only if no close has failed so far
      and every loader with loads left has had a load that bound it since its count was last zero. */
  lemma OwnershipOverRuns(states: seq<State>, home: Key -> string, ops: seq<Op>, n: nat)
    requires IsRun(states, home, ops) && n <= |ops|
    ensures OwnershipHolds(states[n]) <==>
            && (forall library :: !CloseFailed(states, home, ops, n, library))
            && (forall l :: HasLoads(states[n], l) ==> LoadedSince(states, home, ops, n, l))
  {
    hide Valid, OwnershipHolds, LoadedSince, CloseFailed;
    RunIsValid(states, home, ops, n);
    OwnershipIfNoneAstray(states[n], home);
    forall l ensures l in states[n].bound <==> LoadedSince(states, home, ops, n, l) {
      BoundIsLoadedSince(states, home, ops, n, l);
    }
    forall library ensures library in states[n].stale <==> CloseFailed(states, home, ops, n, library) {
      StaleIsCloseFailed(states, home, ops, n, library);
    }
  }

  // ---------- the counts ----------

  /** What an operation on a loader does to its counts: each load with a path counts, failed or not,
      and each unload while no plugins are left takes one back, but not below zero. */
  function Counted(loader: Loader, op: Op): Loader
  {
    match op
    case NewLoader(_, path) => Loader(path, 0, 0)
    case DoLoad(_, _) => if loader.path == "" then loader else loader.(loadCount := loader.loadCount + 1)
    case LoadRefused(_) => if loader.path == "" then loader else loader.(loadCount := loader.loadCount + 1)
    case DoUnload(_, _, _) =>
      if loader.path == "" || loader.pluginCount > 0 || loader.loadCount == 0 then loader
      else loader.(loadCount := loader.loadCount - 1)
    case PluginCreated(_) => loader.(pluginCount := loader.pluginCount + 1)
    case PluginDeleted(_) =>
      if loader.pluginCount == 0 then loader else loader.(pluginCount := loader.pluginCount - 1)
  }

  /** What the first n operations alone say of loader l. */
  function Tally(ops: seq<Op>, n: nat, l: nat): Loader
    requires n <= |ops|
  {
    if n == 0 then Loader("", 0, 0)
    else if ops[n - 1].l == l then Counted(Tally(ops, n - 1, l), ops[n - 1])
    else Tally(ops, n - 1, l)
  }

  ghost predicate Created(ops: seq<Op>, n: nat, l: nat)
    requires n <= |ops|
  {
    exists i :: 0 <= i < n && ops[i].NewLoader? && ops[i].l == l
  }

  /** In every run, failures included, the counts of a loader are those of its operations. */
  lemma {:induction false} CountsAreTallied(states: seq<State>, home: Key -> string, ops: seq<Op>, n: nat, l: nat)
    requires IsRun(states, home, ops) && n <= |ops|
    ensures l in states[n].loaders <==> Created(ops, n, l)
    ensures l in states[n].loaders ==> states[n].loaders[l] == Tally(ops, n, l)
  {
    if n > 0 {
      CountsAreTallied(states, home, ops, n - 1, l);
      assert states[n - 1 + 1] == Next(states[n - 1], ops[n - 1]);
      CountStep(states[n - 1], home, ops[n - 1], l);
      hide Allowed, Next, Counted;
      assert Created(ops, n, l) <==> Created(ops, n - 1, l) || (ops[n - 1].NewLoader? && ops[n - 1].l == l);
    }
  }

  lemma CountStep(st: State, home: Key -> string, op: Op, l: nat)
    requires Allowed(st, home, op)
    ensures var loaders := Next(st, op).loaders;
            && (l in loaders <==> l in st.loaders || (op.NewLoader? && op.l == l))
            && (op.NewLoader? && op.l == l ==> loaders[l] == Loader(op.path, 0, 0))
            && (l in st.loaders ==> loaders[l] == if op.l == l then Counted(st.loaders[l], op) else st.loaders[l])
  {
    hide HasFactory, MayRegister, NoDuplicates;
    match op {
      case DoUnload(m, destroyed, closes) =>
        UnloadCounts(st, m, destroyed, closes);
        hide Unload;
      case _ =>
    }
  }

  /** How many loads of l from operation i up to operation n bound it. */
  ghost function BindingLoads(states: seq<State>, home: Key -> string, ops: seq<Op>, i: nat, n: nat, l: nat): nat
    requires IsRun(states, home, ops) && i <= n <= |ops|
    decreases n
  {
    if n == i then 0
    else BindingLoads(states, home, ops, i, n - 1, l) + if Binds(states[n - 1], ops[n - 1], l) then 1 else 0
  }

  /** How many unloads of l there were while it had no plugins. */
  ghost function Unloads(states: seq<State>, home: Key -> string, ops: seq<Op>, i: nat, n: nat, l: nat): nat
    requires IsRun(states, home, ops) && i <= n <= |ops|
    decreases n
  {
    if n == i then 0
    else
      Unloads(states, home, ops, i, n - 1, l)
      + if ops[n - 1].DoUnload? && ops[n - 1].l == l && states[n - 1].loaders[l].pluginCount == 0 then 1 else 0
  }

  /** From any point of any run on: while a loader has been unloaded less often than it was loaded,
      its library is open and it owns the factories of its library. */
  lemma OwnsWhileLoadsAreLeft(states: seq<State>, home: Key -> string, ops: seq<Op>, i: nat, n: nat, l: nat)
    requires IsRun(states, home, ops) && i <= n <= |ops|
    requires BindingLoads(states, home, ops, i, n, l) > Unloads(states, home, ops, i, n, l)
    ensures var st := states[n];
            && l in st.loaders && st.loaders[l].path in st.open
            && st.loaders[l].loadCount >= BindingLoads(states, home, ops, i, n, l) - Unloads(states, home, ops, i, n, l)
            && (exists k :: Owns(st, l, k) && st.factories[k].library == st.loaders[l].path)
            && forall k :: k in st.factories && st.factories[k].library == st.loaders[l].path ==> Owns(st, l, k)
  {
    hide Valid, BindingLoads, Unloads;
    LoadsLeft(states, home, ops, i, n, l);
    RunIsValid(states, home, ops, n);
    var st := states[n];
    var k := FactoryOfBound(st, home, l);
    BoundIsOpen(st, home, l);
    forall k | k in st.factories && st.factories[k].library == st.loaders[l].path ensures Owns(st, l, k) {
      OwnerIsBound(st, home, l, k);
    }
  }

  lemma BoundIsOpen(st: State, home: Key -> string, l: nat)
    requires Valid(st, home) && l in st.bound
    ensures l in st.loaders && st.loaders[l].path in st.open
  {
  }

  /** The loads that an unload may still take back before a loader lets go. */
  ghost function Left(st: State, l: nat): nat
  {
    if l in st.bound && l in st.loaders then st.loaders[l].loadCount else 0
  }

  lemma {:induction false} LoadsLeft(states: seq<State>, home: Key -> string, ops: seq<Op>, i: nat, n: nat, l: nat)
    requires IsRun(states, home, ops) && i <= n <= |ops|
    ensures BindingLoads(states, home, ops, i, n, l) <= Unloads(states, home, ops, i, n, l) + Left(states[n], l)
    decreases n
  {
    hide Valid, Binds, Left;
    if i < n {
      LoadsLeft(states, home, ops, i, n - 1, l);
      RunIsValid(states, home, ops, n - 1);
      assert states[n - 1 + 1] == Next(states[n - 1], ops[n - 1]) && Allowed(states[n - 1], home, ops[n - 1]);
      LeftStep(states[n - 1], home, ops[n - 1], l);
    }
  }

  lemma LeftStep(st: State, home: Key -> string, op: Op, l: nat)
    requires Valid(st, home) && Allowed(st, home, op)
    ensures Left(st, l) + (if Binds(st, op, l) then 1 else 0)
            <= Left(Next(st, op), l)
               + if op.DoUnload? && op.l == l && st.loaders[l].pluginCount == 0 then 1 else 0
  {
    BoundHasLoads(st, home);
    BindStep(st, home, op, l);
    CountStep(st, home, op, l);
    hide Valid, Next, MayRegister, NoDuplicates, Fails;
  }
}
