/**
 Ownership in class_loader: reference counts of the loaders, owner lists of the factories, the
 factory maps, the graveyard and the list of open libraries.

 What the dynamic linker does is a parameter: opening and closing a library may fail, opening one
 may or may not register factories, and closing one may or may not destroy the factories left
 behind in the graveyard.
 */
module ClassLoader {

  /** A factory is filed under its base class and its class name. */
  datatype Key = Key(base: string, name: string)

  datatype MetaObject = MetaObject(id: nat, key: Key, library: string, owners: seq<nat>)
  {
    predicate IsOwnedBy(loader: nat) { loader in owners }

    function AddOwner(loader: nat): MetaObject
    {
      if loader in owners then this else this.(owners := owners + [loader])
    }

    function RemoveOwner(loader: nat): MetaObject
    {
      this.(owners := Erase(owners, loader))
    }
  }

  datatype Loader = Loader(path: string, loadCount: nat, pluginCount: nat)

  type Factories = map<Key, MetaObject>

  /** Removes the first occurrence. */
  function Erase<T(==)>(s: seq<T>, x: T): seq<T>
  {
    if s == [] then [] else if s[0] == x then s[1..] else [s[0]] + Erase(s[1..], x)
  }

  ghost predicate NoDuplicates<T(!new)>(s: seq<T>)
  {
    forall i, j :: 0 <= i < j < |s| ==> s[i] != s[j]
  }

  ghost function Members<T>(s: seq<T>): set<T>
  {
    set x | x in s
  }

  lemma {:induction false} EraseIs<T(!new)>(s: seq<T>, x: T)
    requires NoDuplicates(s)
    ensures NoDuplicates(Erase(s, x)) && Members(Erase(s, x)) == Members(s) - {x}
  {
    if s != [] {
      MembersCons(s[0], s[1..]);
      assert [s[0]] + s[1..] == s;
      EraseIs(s[1..], x);
      if s[0] != x {
        var t := Erase(s[1..], x);
        MembersCons(s[0], t);
        assert s[0] !in Members(t);
      }
    }
  }

  lemma MembersCons<T(!new)>(x: T, s: seq<T>)
    ensures Members([x] + s) == {x} + Members(s)
    ensures NoDuplicates([x] + s) <==> x !in Members(s) && NoDuplicates(s)
  {
    var t := [x] + s;
    assert t[1..] == s;
    assert forall j :: 1 <= j < |t| ==> t[j] == s[j - 1];
    if NoDuplicates(t) {
      forall x' | x' in s ensures x' != x {
        var i :| 0 <= i < |s| && s[i] == x';
        assert t[0] != t[i + 1];
      }
      forall i, j | 0 <= i < j < |s| ensures s[i] != s[j] {
        assert t[i + 1] != t[j + 1];
      }
    }
  }

  /** The loaders that hold a library's factories. */
  ghost function Holders(loaders: map<nat, Loader>, bound: set<nat>, library: string): set<nat>
  {
    set l | l in bound && l in loaders && loaders[l].path == library
  }

  /** Which library a factory's names belong to: libraries do not share factory names. */
  ghost predicate WellNamed(home: Key -> string, f: MetaObject)
  {
    home(f.key) == f.library
  }

  ghost predicate HasFactory(factories: Factories, library: string)
  {
    exists k :: k in factories && factories[k].library == library
  }

  ghost function OfLibrary(s: set<MetaObject>, library: string): set<MetaObject>
  {
    set g | g in s && g.library == library
  }

  /**
   The state of all of class_loader; the vectors of the source without their order.

   stale are the open libraries whose handle is gone, because closing them failed. bound is what
   has happened to the loaders: they have been bound to factories since their count was last zero.
   */
  datatype State = State(factories: Factories, graveyard: set<MetaObject>, open: set<string>, stale: set<string>,
                         loaders: map<nat, Loader>, bound: set<nat>, nextId: nat)

  ghost function Live(st: State): set<string>
  {
    st.open - st.stale
  }

  /** A factory in the maps belongs to its library, and its owners are the loaders bound to that. */
  ghost predicate FactoryInOrder(k: Key, f: MetaObject, home: Key -> string, holders: set<nat>, nextId: nat)
  {
    && f.key == k && WellNamed(home, f) && f.id < nextId
    && NoDuplicates(f.owners) && Members(f.owners) == holders && holders != {}
  }

  ghost predicate FactoriesInOrder(st: State, home: Key -> string)
  {
    forall k :: k in st.factories ==>
      FactoryInOrder(k, st.factories[k], home, Holders(st.loaders, st.bound, st.factories[k].library), st.nextId)
  }

  ghost predicate GraveyardInOrder(st: State, home: Key -> string)
  {
    && (forall g :: g in st.graveyard ==>
        g.owners == [] && WellNamed(home, g) && g.id < st.nextId && g.library !in Live(st))
    && DistinctKeys(st.graveyard)
  }

  ghost predicate DistinctKeys(s: set<MetaObject>)
  {
    forall g, h :: g in s && h in s && g != h ==> g.key != h.key && g.id != h.id
  }

  /** No object is filed twice, and none is both filed and in the graveyard. */
  ghost predicate InOnePlace(st: State)
  {
    && (forall k, k' :: k in st.factories && k' in st.factories && k != k' ==>
        st.factories[k].id != st.factories[k'].id)
    && (forall k, g :: k in st.factories && g in st.graveyard ==> st.factories[k].id != g.id)
  }

  ghost predicate OpenInOrder(st: State)
  {
    st.stale <= st.open && forall library :: library in Live(st) <==> HasFactory(st.factories, library)
  }

  /** A bound loader has loads left, and its library is open with a handle. */
  ghost predicate LoadersInOrder(st: State)
  {
    && (forall l :: l in st.bound ==> l in st.loaders && st.loaders[l].loadCount > 0 && st.loaders[l].path in Live(st))
    && (forall l :: l in st.loaders && st.loaders[l].loadCount > 0 ==> st.loaders[l].path != "")
  }

  ghost predicate Valid(st: State, home: Key -> string)
  {
    FactoriesInOrder(st, home) && GraveyardInOrder(st, home) && InOnePlace(st) && OpenInOrder(st) && LoadersInOrder(st)
  }

  /** What the linker may do when a library is opened: register factories of fresh objects under
      names of that library, each once; nothing at all only if earlier ones wait in the graveyard. */
  ghost predicate MayRegister(st: State, home: Key -> string, library: string, registered: seq<Key>)
  {
    && NoDuplicates(registered)
    && (forall k :: k in registered ==> home(k) == library)
    && (registered == [] ==> OfLibrary(st.graveyard, library) != {})
  }

  // ---------- the steps on values ----------

  function CountUp(loaders: map<nat, Loader>, l: nat): map<nat, Loader>
    requires l in loaders
  {
    loaders[l := loaders[l].(loadCount := loaders[l].loadCount + 1)]
  }

  function CountDown(loaders: map<nat, Loader>, l: nat): map<nat, Loader>
    requires l in loaders
  {
    loaders[l := loaders[l].(loadCount := if loaders[l].loadCount == 0 then 0 else loaders[l].loadCount - 1)]
  }

  ghost function WithOwner(factories: Factories, library: string, l: nat): Factories
  {
    map k | k in factories :: if factories[k].library == library then factories[k].AddOwner(l) else factories[k]
  }

  /** A factory dies when its last owner lets go of it. */
  predicate Dies(f: MetaObject, library: string, l: nat)
  {
    f.library == library && f.IsOwnedBy(l) && f.RemoveOwner(l).owners == []
  }

  ghost function Released(factories: Factories, library: string, l: nat): Factories
  {
    map k | k in factories && !Dies(factories[k], library, l) ::
      if factories[k].library == library && factories[k].IsOwnedBy(l) then factories[k].RemoveOwner(l) else factories[k]
  }

  ghost function Dead(factories: Factories, library: string, l: nat): set<MetaObject>
  {
    set k | k in factories && Dies(factories[k], library, l) :: factories[k].RemoveOwner(l)
  }

  function IndexOf<T(==)>(s: seq<T>, x: T): (i: nat)
    requires x in s
    ensures i < |s| && s[i] == x
  {
    if s[0] == x then 0 else 1 + IndexOf(s[1..], x)
  }

  function Registered(keys: seq<Key>, library: string, l: nat, nextId: nat): Factories
  {
    map k | k in keys :: MetaObject(nextId + IndexOf(keys, k), k, library, [l])
  }

  ghost function KeysOf(s: set<MetaObject>): set<Key>
  {
    set g | g in s :: g.key
  }

  ghost function Named(s: set<MetaObject>, k: Key): (g: MetaObject)
    requires k in KeysOf(s)
    ensures g in s && g.key == k
  {
    var g :| g in s && g.key == k;
    g
  }

  ghost function Revived(graveyard: set<MetaObject>, library: string, l: nat): Factories
  {
    map k | k in KeysOf(OfLibrary(graveyard, library)) :: Named(OfLibrary(graveyard, library), k).AddOwner(l)
  }

  /** Binding to a stale library finds no factories. */
  ghost function Load(st: State, l: nat, registered: seq<Key>): State
    requires l in st.loaders
  {
    var library := st.loaders[l].path;
    if library == "" then st
    else if library in st.open then
      st.(loaders := CountUp(st.loaders, l), factories := WithOwner(st.factories, library, l),
          bound := if library in st.stale then st.bound else st.bound + {l})
    else
      var factories := st.factories + Registered(registered, library, l, st.nextId);
      State(if HasFactory(factories, library) then factories else factories + Revived(st.graveyard, library, l),
            st.graveyard - OfLibrary(st.graveyard, library), st.open + {library}, st.stale,
            CountUp(st.loaders, l), st.bound + {l}, st.nextId + |registered|)
  }

  /** The load has been counted before the exception is thrown. */
  ghost function FailLoad(st: State, l: nat): State
    requires l in st.loaders
  {
    st.(loaders := CountUp(st.loaders, l))
  }

  /** The last load of a loader is taken back, so its library is looked up in the open list. */
  predicate LetsGo(st: State, l: nat)
    requires l in st.loaders
  {
    st.loaders[l].path != "" && st.loaders[l].pluginCount == 0 && st.loaders[l].loadCount == 1
  }

  /** The library has to be closed, and cannot be; without a handle it never can be. */
  ghost predicate CloseFails(st: State, l: nat, closes: bool)
    requires l in st.loaders
  {
    var library := st.loaders[l].path;
    && LetsGo(st, l) && library in st.open && !HasFactory(Released(st.factories, library, l), library)
    && (library in st.stale || !closes)
  }

  /** closes says whether the library can be closed, and destroyed whether that destroys the
      factories left in the graveyard. A failing close comes after the factories were released. */
  ghost function Unload(st: State, l: nat, destroyed: bool, closes: bool): State
    requires l in st.loaders
  {
    var library := st.loaders[l].path;
    if library == "" || st.loaders[l].pluginCount > 0 then st
    else if st.loaders[l].loadCount != 1 then st.(loaders := CountDown(st.loaders, l))
    else
      var st1 := st.(loaders := CountDown(st.loaders, l), bound := st.bound - {l});
      if library !in st.open then st1
      else
        var factories := Released(st.factories, library, l);
        var graveyard := st.graveyard + Dead(st.factories, library, l);
        var st2 := st1.(factories := factories, graveyard := graveyard);
        if HasFactory(factories, library) then st2
        else if CloseFails(st, l, closes) then st2.(stale := st.stale + {library})
        else st2.(open := st.open - {library},
                  graveyard := if destroyed then graveyard - OfLibrary(graveyard, library) else graveyard)
  }

  // ---------- every run ----------

  datatype Op =
    | NewLoader(l: nat, path: string)
    | DoLoad(l: nat, registered: seq<Key>)
    | LoadRefused(l: nat)  // a load at a time when the library cannot be opened
    | DoUnload(l: nat, destroyed: bool, closes: bool)
    | PluginCreated(l: nat)
    | PluginDeleted(l: nat)

  ghost predicate Allowed(st: State, home: Key -> string, op: Op)
  {
    match op
    case NewLoader(l, _) => l !in st.loaders
    case DoLoad(l, registered) =>
      l in st.loaders && NoDuplicates(registered)
      && (st.loaders[l].path != "" && st.loaders[l].path !in st.open ==>
          MayRegister(st, home, st.loaders[l].path, registered))
    case LoadRefused(l) => l in st.loaders
    case DoUnload(l, _, _) => l in st.loaders
    case PluginCreated(l) => l in st.loaders
    case PluginDeleted(l) => l in st.loaders && st.loaders[l].pluginCount > 0
  }

  ghost function Next(st: State, op: Op): State
    requires op.NewLoader? || op.l in st.loaders
    requires op.PluginDeleted? ==> st.loaders[op.l].pluginCount > 0
  {
    match op
    case NewLoader(l, path) => st.(loaders := st.loaders[l := Loader(path, 0, 0)])
    case DoLoad(l, registered) => Load(st, l, registered)
    case LoadRefused(l) => if Fails(st, op) then FailLoad(st, l) else Load(st, l, [])
    case DoUnload(l, destroyed, closes) => Unload(st, l, destroyed, closes)
    case PluginCreated(l) => CountPlugins(st, l, st.loaders[l].pluginCount + 1)
    case PluginDeleted(l) => CountPlugins(st, l, st.loaders[l].pluginCount - 1)
  }

  /** The operation throws: a library would have to be opened or closed, and cannot be. */
  ghost predicate Fails(st: State, op: Op)
    requires op.NewLoader? || op.l in st.loaders
  {
    match op
    case LoadRefused(l) => st.loaders[l].path != "" && st.loaders[l].path !in st.open
    case DoUnload(l, _, closes) => CloseFails(st, l, closes)
    case _ => false
  }

  ghost function CountPlugins(st: State, l: nat, n: nat): State
    requires l in st.loaders
  {
    st.(loaders := st.loaders[l := st.loaders[l].(pluginCount := n)])
  }

  lemma SameHoldersKeepValid(st: State, home: Key -> string, st': State)
    requires Valid(st, home) && LoadersInOrder(st')
    requires st' == st.(loaders := st'.loaders)
    requires forall library :: Holders(st'.loaders, st'.bound, library) == Holders(st.loaders, st.bound, library)
    ensures Valid(st', home)
  {
    hide HasFactory, Holders, NoDuplicates, Members;
  }

  lemma NextKeepsValid(st: State, home: Key -> string, op: Op)
    requires Valid(st, home) && Allowed(st, home, op)
    ensures Valid(Next(st, op), home)
  {
    hide FactoriesInOrder, GraveyardInOrder, InOnePlace, OpenInOrder, HasFactory;
    match op {
      case DoLoad(l, registered) => LoadKeepsValid(st, home, l, registered);
      case LoadRefused(l) =>
        if Fails(st, op) {
          CountingUpKeepsValid(st, home, l);
        } else {
          LoadKeepsValid(st, home, l, []);
        }
      case DoUnload(l, destroyed, closes) => UnloadKeepsValid(st, home, l, destroyed, closes);
      case _ =>
        var st' := Next(st, op);
        forall library ensures Holders(st'.loaders, st'.bound, library) == Holders(st.loaders, st.bound, library) {
        }
        SameHoldersKeepValid(st, home, st');
    }
  }

  const START := State(map[], {}, {}, {}, map[], {}, 0)

  ghost predicate IsRun(states: seq<State>, home: Key -> string, ops: seq<Op>)
  {
    && |states| == |ops| + 1
    && states[0] == START
    && forall i {:trigger ops[i]} :: 0 <= i < |ops| ==>
         Allowed(states[i], home, ops[i]) && states[i + 1] == Next(states[i], ops[i])
  }

  /** In every run, failing loads and unloads included. */
  lemma {:induction false} RunIsValid(states: seq<State>, home: Key -> string, ops: seq<Op>, i: nat)
    requires IsRun(states, home, ops) && i < |states|
    ensures Valid(states[i], home)
  {
    hide Valid;
    if i > 0 {
      RunIsValid(states, home, ops, i - 1);
      assert states[i - 1 + 1] == Next(states[i - 1], ops[i - 1]);
      NextKeepsValid(states[i - 1], home, ops[i - 1]);
    } else {
      StartIsValid(home);
    }
  }

  lemma StartIsValid(home: Key -> string)
    ensures Valid(START, home)
  {
  }

  // ---------- what every step keeps ----------

  lemma HoldersUp(loaders: map<nat, Loader>, bound: set<nat>, l: nat, library: string)
    requires l in loaders
    ensures Holders(CountUp(loaders, l), bound, library) == Holders(loaders, bound, library)
    ensures Holders(CountUp(loaders, l), bound + {l}, library) ==
            if library == loaders[l].path then Holders(loaders, bound, library) + {l}
            else Holders(loaders, bound, library)
  {
  }

  lemma AddOwnerIs(f: MetaObject, l: nat)
    requires NoDuplicates(f.owners)
    ensures NoDuplicates(f.AddOwner(l).owners) && Members(f.AddOwner(l).owners) == Members(f.owners) + {l}
  {
  }

  /** The same factories, up to owners, under the same keys. */
  ghost predicate SameFiles(a: Factories, b: Factories)
  {
    a.Keys == b.Keys && forall k :: k in a ==>
        a[k].library == b[k].library && a[k].id == b[k].id && a[k].key == b[k].key
  }

  lemma SameFilesSameLibraries(a: Factories, b: Factories, library: string)
    requires SameFiles(a, b)
    ensures HasFactory(a, library) <==> HasFactory(b, library)
  {
  }

  lemma LoadOpenKeepsValid(st: State, home: Key -> string, l: nat)
    requires Valid(st, home) && l in st.loaders && st.loaders[l].path != "" && st.loaders[l].path in Live(st)
    ensures Valid(Load(st, l, []), home)
  {
    hide HasFactory, Holders, Members, NoDuplicates;
    var st' := Load(st, l, []);
    LoadOpenFiles(st, home, l, st');
    forall other ensures other in Live(st') <==> HasFactory(st'.factories, other) {
      SameFilesSameLibraries(st.factories, st'.factories, other);
    }
    assert OpenInOrder(st') && LoadersInOrder(st');
    assert GraveyardInOrder(st', home);
    hide FactoriesInOrder, GraveyardInOrder, OpenInOrder, LoadersInOrder;
    assert InOnePlace(st');
  }

  lemma LoadOpenFiles(st: State, home: Key -> string, l: nat, st': State)
    requires FactoriesInOrder(st, home) && l in st.loaders
    requires st'.factories == WithOwner(st.factories, st.loaders[l].path, l) && st'.nextId == st.nextId
    requires st'.loaders == CountUp(st.loaders, l) && st'.bound == st.bound + {l}
    ensures FactoriesInOrder(st', home) && SameFiles(st.factories, st'.factories)
  {
    hide Holders, Members, NoDuplicates;
    forall k | k in st'.factories
      ensures FactoryInOrder(k, st'.factories[k], home, Holders(st'.loaders, st'.bound, st'.factories[k].library),
                st.nextId)
    {
      HoldersUp(st.loaders, st.bound, l, st.factories[k].library);
      AddOwnerIs(st.factories[k], l);
    }
  }

  /** A load that binds nothing changes the count only. */
  lemma CountingUpKeepsValid(st: State, home: Key -> string, l: nat)
    requires Valid(st, home) && l in st.loaders && st.loaders[l].path != ""
    ensures Valid(FailLoad(st, l), home)
    ensures st.loaders[l].path in st.stale ==> forall registered :: Load(st, l, registered) == FailLoad(st, l)
  {
    hide HasFactory;
    forall library
      ensures Holders(CountUp(st.loaders, l), st.bound, library) == Holders(st.loaders, st.bound, library)
    {
      HoldersUp(st.loaders, st.bound, l, library);
    }
    if st.loaders[l].path in st.stale {
      assert !HasFactory(st.factories, st.loaders[l].path);
      NoFilesNoOwner(st.factories, st.loaders[l].path, l);
    }
  }

  lemma NoFilesNoOwner(factories: Factories, library: string, l: nat)
    requires !HasFactory(factories, library)
    ensures WithOwner(factories, library, l) == factories
  {
  }

  lemma NoHolders(st: State, library: string)
    requires LoadersInOrder(st) && library !in Live(st)
    ensures Holders(st.loaders, st.bound, library) == {}
  {
  }

  /** A name of a library that is not open is not filed. */
  lemma NameIsFree(st: State, home: Key -> string, library: string, k: Key)
    requires FactoriesInOrder(st, home) && OpenInOrder(st) && library !in Live(st) && home(k) == library
    ensures k !in st.factories
  {
    if k in st.factories {
      FiledIsOpen(st, k);
    }
  }

  /** The factories a library gets when it is opened by loader l. */
  ghost predicate NewFiles(st: State, home: Key -> string, files: Factories, library: string, l: nat, nextId: nat)
  {
    && files != map[] && st.nextId <= nextId
    && (forall k :: k in files ==> files[k].library == library && FactoryInOrder(k, files[k], home, {l}, nextId))
    && (forall k, k' :: k in files && k' in files && k != k' ==> files[k].id != files[k'].id)
    && (forall k, k' :: k in files && k' in st.factories ==> files[k].id != st.factories[k'].id)
    && (forall k, g :: k in files && g in st.graveyard && g.library != library ==> files[k].id != g.id)
  }

  lemma OpeningKeepsValid(st: State, home: Key -> string, files: Factories, l: nat, nextId: nat, st': State)
    requires Valid(st, home) && l in st.loaders
    requires var library := st.loaders[l].path;
             && library != "" && library !in st.open && NewFiles(st, home, files, library, l, nextId)
             && st' == State(st.factories + files, st.graveyard - OfLibrary(st.graveyard, library), st.open + {library},
                             st.stale, CountUp(st.loaders, l), st.bound + {l}, nextId)
    ensures Valid(st', home)
  {
    hide HasFactory, Holders, NoDuplicates, Members, FactoryInOrder, NewFiles, InOnePlace, FactoriesInOrder;
    var library := st.loaders[l].path;
    OpeningFiles(st, home, files, l, nextId, st');
    OpeningIds(st, home, files, library, l, nextId, st');
    forall other ensures other in Live(st') <==> HasFactory(st'.factories, other) {
      FilesAdded(st, home, files, library, l, nextId, other);
    }
  }

  lemma OpeningFiles(st: State, home: Key -> string, files: Factories, l: nat, nextId: nat, st': State)
    requires FactoriesInOrder(st, home) && LoadersInOrder(st) && OpenInOrder(st) && l in st.loaders
    requires var library := st.loaders[l].path;
             library !in st.open && NewFiles(st, home, files, library, l, nextId)
    requires st'.factories == st.factories + files && st'.loaders == CountUp(st.loaders, l)
               && st'.bound == st.bound + {l} && st'.nextId == nextId
    ensures FactoriesInOrder(st', home)
  {
    hide HasFactory, Holders, NoDuplicates, Members, OpenInOrder, LoadersInOrder;
    NoHolders(st, st.loaders[l].path);
    forall k | k in st'.factories
      ensures FactoryInOrder(k, st'.factories[k], home, Holders(st'.loaders, st'.bound, st'.factories[k].library),
                nextId)
    {
      HoldersUp(st.loaders, st.bound, l, st'.factories[k].library);
      if k !in files {
        FiledIsOpen(st, k);
      }
    }
  }

  lemma OpeningIds(st: State, home: Key -> string, files: Factories, library: string, l: nat, nextId: nat, st': State)
    requires InOnePlace(st) && GraveyardInOrder(st, home) && NewFiles(st, home, files, library, l, nextId)
    requires st'.factories == st.factories + files && st'.graveyard == st.graveyard - OfLibrary(st.graveyard, library)
    requires st'.open == st.open + {library} && st'.stale == st.stale && st'.nextId == nextId
    ensures InOnePlace(st') && GraveyardInOrder(st', home)
  {
    hide FactoryInOrder;
  }

  lemma FiledIsOpen(st: State, k: Key)
    requires OpenInOrder(st) && k in st.factories
    ensures st.factories[k].library in Live(st)
  {
    assert HasFactory(st.factories, st.factories[k].library);
  }

  lemma FilesAdded(st: State, home: Key -> string, files: Factories, library: string, l: nat, nextId: nat,
                   other: string)
    requires FactoriesInOrder(st, home) && OpenInOrder(st) && library !in Live(st)
    requires NewFiles(st, home, files, library, l, nextId)
    ensures HasFactory(st.factories + files, other) <==> other == library || HasFactory(st.factories, other)
  {
    var all := st.factories + files;
    if other == library {
      var k :| k in files;
      assert k in all && all[k].library == library;
    } else if HasFactory(st.factories, other) {
      var k :| k in st.factories && st.factories[k].library == other;
      if k in files {
        NameIsFree(st, home, library, k);
      }
      assert k in all && all[k].library == other;
    }
  }

  lemma RegisteredAreNew(st: State, home: Key -> string, registered: seq<Key>, library: string, l: nat)
    requires Valid(st, home) && library !in st.open && MayRegister(st, home, library, registered) && registered != []
    ensures NewFiles(st, home, Registered(registered, library, l, st.nextId), library, l, st.nextId + |registered|)
    ensures HasFactory(st.factories + Registered(registered, library, l, st.nextId), library)
  {
    hide HasFactory, NewFiles, Registered;
    RegisteredFiles(st, home, registered, library, l);
    FilesAdded(st, home, Registered(registered, library, l, st.nextId), library, l, st.nextId + |registered|, library);
  }

  lemma RegisteredFiles(st: State, home: Key -> string, registered: seq<Key>, library: string, l: nat)
    requires FactoriesInOrder(st, home) && GraveyardInOrder(st, home)
    requires library !in st.open && MayRegister(st, home, library, registered) && registered != []
    ensures NewFiles(st, home, Registered(registered, library, l, st.nextId), library, l, st.nextId + |registered|)
  {
    hide Holders;
    var files := Registered(registered, library, l, st.nextId);
    assert registered[0] in files;
    OneOwner(l);
  }

  lemma RevivedAreNew(st: State, home: Key -> string, library: string, l: nat)
    requires Valid(st, home) && library !in st.open && OfLibrary(st.graveyard, library) != {}
    ensures NewFiles(st, home, Revived(st.graveyard, library, l), library, l, st.nextId)
  {
    hide HasFactory, Holders, OpenInOrder, LoadersInOrder;
    var files := Revived(st.graveyard, library, l);
    var g0 :| g0 in OfLibrary(st.graveyard, library);
    assert g0.key in files;
    OneOwner(l);
    forall k | k in files
      ensures files[k].library == library && FactoryInOrder(k, files[k], home, {l}, st.nextId)
    {
      assert files[k] == Named(OfLibrary(st.graveyard, library), k).AddOwner(l);
    }
  }

  lemma OneOwner(l: nat)
    ensures NoDuplicates([l]) && Members([l]) == {l} && [] + [l] == [l]
  {
  }

  lemma LoadKeepsValid(st: State, home: Key -> string, l: nat, registered: seq<Key>)
    requires Valid(st, home) && l in st.loaders
    requires st.loaders[l].path != "" && st.loaders[l].path !in st.open ==>
               MayRegister(st, home, st.loaders[l].path, registered)
    requires NoDuplicates(registered)
    ensures Valid(Load(st, l, registered), home)
  {
    hide Valid, FactoriesInOrder, InOnePlace, OpenInOrder, LoadersInOrder, NewFiles, HasFactory;
    var library := st.loaders[l].path;
    if library == "" {
    } else if library in st.stale {
      CountingUpKeepsValid(st, home, l);
    } else if library in st.open {
      LoadOpenKeepsValid(st, home, l);
    } else if registered == [] {
      RevivedAreNew(st, home, library, l);
      NotFiled(st, home, library);
      assert st.factories + Registered([], library, l, st.nextId) == st.factories;
      OpeningKeepsValid(st, home, Revived(st.graveyard, library, l), l, st.nextId, Load(st, l, registered));
    } else {
      RegisteredAreNew(st, home, registered, library, l);
      var files := Registered(registered, library, l, st.nextId);
      OpeningKeepsValid(st, home, files, l, st.nextId + |registered|, Load(st, l, registered));
    }
  }

  lemma NotFiled(st: State, home: Key -> string, library: string)
    requires Valid(st, home) && library !in Live(st)
    ensures !HasFactory(st.factories, library)
  {
  }

  lemma ValidMeansDistinct(st: State, home: Key -> string)
    requires Valid(st, home)
    ensures DistinctKeys(st.graveyard)
  {
  }

  // ---------- unloading ----------

  lemma RemoveOwnerIs(f: MetaObject, l: nat)
    requires NoDuplicates(f.owners)
    ensures NoDuplicates(f.RemoveOwner(l).owners) && Members(f.RemoveOwner(l).owners) == Members(f.owners) - {l}
    ensures f.RemoveOwner(l).owners == [] <==> Members(f.owners) - {l} == {}
  {
    EraseIs(f.owners, l);
    var r := Erase(f.owners, l);
    if r != [] {
      assert r[0] in Members(r);
    }
  }

  /** What one factory becomes when loader l lets go of its library. */
  lemma ReleasedAt(st: State, home: Key -> string, l: nat, k: Key)
    requires FactoriesInOrder(st, home) && l in st.loaders && l in st.bound && k in st.factories
    ensures var f, library := st.factories[k], st.loaders[l].path;
            var holders := Holders(CountDown(st.loaders, l), st.bound - {l}, f.library);
            && (Dies(f, library, l) <==> holders == {})
            && (holders != {} ==>
                  && k in Released(st.factories, library, l)
                  && FactoryInOrder(k, Released(st.factories, library, l)[k], home, holders, st.nextId)
                  && Released(st.factories, library, l)[k].library == f.library)
            && (Dies(f, library, l) ==> f.library == library && f.RemoveOwner(l).owners == [])
  {
    hide NoDuplicates;
    var f := st.factories[k];
    assert FactoryInOrder(k, f, home, Holders(st.loaders, st.bound, f.library), st.nextId);
    RemoveOwnerIs(f, l);
    assert f.library == st.loaders[l].path <==> l in Holders(st.loaders, st.bound, f.library);
  }

  lemma UnloadKeepsValid(st: State, home: Key -> string, l: nat, destroyed: bool, closes: bool)
    requires Valid(st, home) && l in st.loaders
    ensures Valid(Unload(st, l, destroyed, closes), home)
  {
    var st' := Unload(st, l, destroyed, closes);
    if st.loaders[l].path == "" || st.loaders[l].pluginCount > 0 {
    } else if l !in st.bound {
      UnboundUnload(st, home, l, destroyed, closes);
      OnlyCountsDown(st, home, l);
    } else if st.loaders[l].loadCount != 1 {
      OnlyCountsDown(st, home, l);
    } else {
      hide Valid, FactoriesInOrder, GraveyardInOrder, InOnePlace, OpenInOrder, LoadersInOrder, HasFactory, Dead;
      hide Released;
      StaleAreOpen(st, home);
      UnloadLive(st, l, destroyed, closes);
      hide Unload, Live;
      UnloadFactories(st, home, l, st');
      UnloadGraveyard(st, home, l, destroyed, closes, st');
      UnloadOpen(st, home, l, st');
      AllParts(st', home);
    }
  }

  lemma StaleAreOpen(st: State, home: Key -> string)
    requires Valid(st, home)
    ensures st.stale <= st.open
  {
  }

  lemma UnloadLive(st: State, l: nat, destroyed: bool, closes: bool)
    requires l in st.loaders && LetsGo(st, l) && st.loaders[l].path in Live(st) && st.stale <= st.open
    ensures var st', library := Unload(st, l, destroyed, closes), st.loaders[l].path;
            && st'.factories == Released(st.factories, library, l) && st'.loaders == CountDown(st.loaders, l)
            && st'.bound == st.bound - {l} && st'.nextId == st.nextId && st'.stale <= st'.open
            && Live(st') == if HasFactory(st'.factories, library) then Live(st) else Live(st) - {library}
  {
    hide Released, Dead, HasFactory;
  }

  /** A loader that owns nothing lets nothing go. */
  lemma UnboundUnload(st: State, home: Key -> string, l: nat, destroyed: bool, closes: bool)
    requires Valid(st, home) && l in st.loaders && l !in st.bound
    requires st.loaders[l].path != "" && st.loaders[l].pluginCount == 0
    ensures Unload(st, l, destroyed, closes) == st.(loaders := CountDown(st.loaders, l))
  {
    hide HasFactory, GraveyardInOrder, InOnePlace;
    var library := st.loaders[l].path;
    forall k | k in st.factories && st.factories[k].library == library ensures !st.factories[k].IsOwnedBy(l) {
      assert FactoryInOrder(k, st.factories[k], home, Holders(st.loaders, st.bound, library), st.nextId);
      assert l !in Members(st.factories[k].owners);
    }
    assert Released(st.factories, library, l) == st.factories;
    assert Dead(st.factories, library, l) == {};
    assert st.bound - {l} == st.bound;
    if library in st.stale {
      assert library !in Live(st);
      assert st.stale + {library} == st.stale;
    } else if library in st.open {
      assert library in Live(st);
    }
  }

  lemma AllParts(st: State, home: Key -> string)
    requires FactoriesInOrder(st, home) && GraveyardInOrder(st, home) && InOnePlace(st) && OpenInOrder(st)
               && LoadersInOrder(st)
    ensures Valid(st, home)
  {
  }

  lemma OnlyCountsDown(st: State, home: Key -> string, l: nat)
    requires Valid(st, home) && l in st.loaders && (l in st.bound ==> st.loaders[l].loadCount != 1)
    ensures Valid(st.(loaders := CountDown(st.loaders, l)), home)
  {
    hide HasFactory;
    forall library
      ensures Holders(CountDown(st.loaders, l), st.bound, library) == Holders(st.loaders, st.bound, library)
    {
    }
  }

  lemma UnloadFactories(st: State, home: Key -> string, l: nat, st': State)
    requires Valid(st, home) && l in st.loaders && l in st.bound
    requires st'.factories == Released(st.factories, st.loaders[l].path, l)
    requires st'.loaders == CountDown(st.loaders, l) && st'.bound == st.bound - {l} && st'.nextId == st.nextId
    ensures FactoriesInOrder(st', home)
  {
    hide Holders, NoDuplicates, Members;
    forall k | k in st'.factories
      ensures FactoryInOrder(k, st'.factories[k], home, Holders(st'.loaders, st'.bound, st'.factories[k].library),
                st.nextId)
    {
      ReleasedAt(st, home, l, k);
    }
  }

  /** A factory of the library is left exactly if another loader holds it. */
  lemma LeftIfHeld(st: State, home: Key -> string, l: nat)
    requires Valid(st, home) && l in st.loaders && l in st.bound
    ensures var library := st.loaders[l].path;
            HasFactory(Released(st.factories, library, l), library) <==>
                Holders(CountDown(st.loaders, l), st.bound - {l}, library) != {}
  {
    hide Holders, Dies;
    var library := st.loaders[l].path;
    var k :| k in st.factories && st.factories[k].library == library;
    ReleasedAt(st, home, l, k);
    forall k' | k' in Released(st.factories, library, l) && st.factories[k'].library == library
      ensures Holders(CountDown(st.loaders, l), st.bound - {l}, library) != {}
    {
      ReleasedAt(st, home, l, k');
    }
  }

  lemma OthersKeepTheirFiles(factories: Factories, library: string, l: nat, other: string)
    requires other != library
    ensures HasFactory(Released(factories, library, l), other) <==> HasFactory(factories, other)
  {
    hide Dies;
    var released := Released(factories, library, l);
    if k :| k in factories && factories[k].library == other {
      OtherDoesNotDie(factories[k], library, l);
      assert k in released && released[k].library == other;
    }
  }

  lemma OtherDoesNotDie(f: MetaObject, library: string, l: nat)
    ensures f.library != library ==> !Dies(f, library, l)
  {
  }

  lemma UnloadOpen(st: State, home: Key -> string, l: nat, st': State)
    requires Valid(st, home) && l in st.loaders && l in st.bound
    requires st'.factories == Released(st.factories, st.loaders[l].path, l)
    requires st'.loaders == CountDown(st.loaders, l) && st'.bound == st.bound - {l} && st'.stale <= st'.open
    requires Live(st') == if HasFactory(st'.factories, st.loaders[l].path) then Live(st)
                          else Live(st) - {st.loaders[l].path}
    ensures OpenInOrder(st') && LoadersInOrder(st')
  {
    hide HasFactory, FactoriesInOrder, GraveyardInOrder, InOnePlace, Released, Live;
    var library := st.loaders[l].path;
    LeftIfHeld(st, home, l);
    forall other | other != library ensures HasFactory(st'.factories, other) <==> HasFactory(st.factories, other) {
      OthersKeepTheirFiles(st.factories, library, l, other);
    }
    forall l' | l' in st'.bound
      ensures l' in st'.loaders && st'.loaders[l'].loadCount > 0 && st'.loaders[l'].path in Live(st')
    {
      if st'.loaders[l'].path == library {
        assert l' in Holders(st'.loaders, st'.bound, library);
      }
    }
  }

  /** What lands in the graveyard, and how it lies to what is filed and what was there. */
  lemma DeadAre(st: State, home: Key -> string, l: nat, g: MetaObject)
    requires Valid(st, home) && l in st.loaders && l in st.bound
    requires g in Dead(st.factories, st.loaders[l].path, l)
    ensures g.owners == [] && WellNamed(home, g) && g.id < st.nextId && g.library == st.loaders[l].path
    ensures g.key in st.factories && st.factories[g.key].id == g.id && Dies(st.factories[g.key], st.loaders[l].path, l)
    ensures g == st.factories[g.key].RemoveOwner(l)
              && Holders(CountDown(st.loaders, l), st.bound - {l}, g.library) == {}
  {
    hide Holders, NoDuplicates, Members, LoadersInOrder, HasFactory, Dies, InOnePlace;
    var k :| k in st.factories && Dies(st.factories[k], st.loaders[l].path, l) && g == st.factories[k].RemoveOwner(l);
    ReleasedAt(st, home, l, k);
    assert FactoryInOrder(k, st.factories[k], home, Holders(st.loaders, st.bound, st.factories[k].library), st.nextId);
  }

  lemma GraveNameIsFree(st: State, home: Key -> string, k: Key, g: MetaObject)
    requires Valid(st, home) && k in st.factories && g in st.graveyard
    ensures k != g.key
  {
    hide Holders, NoDuplicates, Members, LoadersInOrder, HasFactory, InOnePlace;
    FiledIsOpen(st, k);
    assert FactoryInOrder(k, st.factories[k], home, Holders(st.loaders, st.bound, st.factories[k].library), st.nextId);
  }

  lemma DeadAreApart(st: State, home: Key -> string, l: nat, dead: set<MetaObject>)
    requires Valid(st, home) && l in st.loaders && l in st.bound
    requires dead == Dead(st.factories, st.loaders[l].path, l)
    ensures DistinctKeys(st.graveyard + dead)
  {
    hide Dead, Dies, Holders, NoDuplicates, Members, OpenInOrder, LoadersInOrder, HasFactory, FactoriesInOrder;
    hide WellNamed;
    forall g | g in dead
      ensures g.key in st.factories && st.factories[g.key].id == g.id && g == st.factories[g.key].RemoveOwner(l)
    {
      DeadAre(st, home, l, g);
    }
    forall g, h | g in st.graveyard && h in dead ensures g.key != h.key && g.id != h.id {
      GraveNameIsFree(st, home, h.key, g);
    }
  }

  lemma UnloadGraveyard(st: State, home: Key -> string, l: nat, destroyed: bool, closes: bool, st': State)
    requires Valid(st, home) && l in st.loaders && l in st.bound && LetsGo(st, l)
    requires st.loaders[l].path in Live(st) && st' == Unload(st, l, destroyed, closes)
    ensures GraveyardInOrder(st', home) && InOnePlace(st')
  {
    hide Holders, NoDuplicates, Members, LoadersInOrder, HasFactory, Dies, FactoriesInOrder, OpenInOrder, Dead;
    var library := st.loaders[l].path;
    var dead := Dead(st.factories, library, l);
    LeftIfHeld(st, home, l);
    DeadAreApart(st, home, l, dead);
    forall g | g in dead
      ensures g.owners == [] && WellNamed(home, g) && g.id < st.nextId && g.library == library
      ensures g.key in st.factories && st.factories[g.key].id == g.id && Dies(st.factories[g.key], library, l)
      ensures Holders(CountDown(st.loaders, l), st.bound - {l}, library) == {}
    {
      DeadAre(st, home, l, g);
    }
    hide WellNamed;
    assert GraveyardInOrder(st', home);
    hide DistinctKeys, GraveyardInOrder;
    forall k | k in st'.factories
      ensures k in st.factories && st'.factories[k].id == st.factories[k].id && !Dies(st.factories[k], library, l)
    {
    }
    assert st'.graveyard <= st.graveyard + dead;
    hide Unload, InOnePlace, Released;
    StillInOnePlace(st, dead, st');
  }

  lemma StillInOnePlace(st: State, dead: set<MetaObject>, st': State)
    requires InOnePlace(st) && st'.graveyard <= st.graveyard + dead
    requires forall k :: k in st'.factories ==> k in st.factories && st'.factories[k].id == st.factories[k].id
    requires forall g :: g in dead ==>
               g.key in st.factories && g.key !in st'.factories && st.factories[g.key].id == g.id
    ensures InOnePlace(st')
  {
  }

  // ---------- class_loader itself ----------

  class System {
    var factories: Factories
    var graveyard: seq<MetaObject>
    var open: seq<string>
    /** The open libraries whose handle an unsuccessful close has taken away. */
    var stale: set<string>
    var loaders: map<nat, Loader>
    var nextId: nat
    ghost var bound: set<nat>
    ghost const home: Key -> string

    ghost function Abs(): State
      reads this
    {
      State(factories, Members(graveyard), Members(open), stale, loaders, bound, nextId)
    }

    ghost predicate InOrder()
      reads this
    {
      NoDuplicates(open) && Valid(Abs(), home)
    }

    constructor (home: Key -> string)
      ensures InOrder() && Abs() == START && this.home == home
    {
      factories, graveyard, open, stale, loaders, bound, nextId := map[], [], [], {}, map[], {}, 0;
      this.home := home;
    }

    /** opens says whether the library can be opened; if it has to be and cannot, an exception is
        thrown. Calls may follow that. */
    method LoadLibrary(l: nat, registered: seq<Key>, opens: bool) returns (thrown: bool)
      requires InOrder() && Allowed(Abs(), home, if opens then DoLoad(l, registered) else LoadRefused(l))
      modifies this
      ensures InOrder() && (thrown <==> !opens && old(Fails(Abs(), LoadRefused(l))))
      ensures Abs() == if thrown then FailLoad(old(Abs()), l) else Load(old(Abs()), l, registered)
      ensures var before := old(loaders[l]);
              loaders == old(loaders)[l := if before.path == "" then before
                                           else before.(loadCount := before.loadCount + 1)]
    {
      hide Valid, NoDuplicates, HasFactory, MayRegister;
      ghost var before := Abs();
      NextKeepsValid(before, home, if opens then DoLoad(l, registered) else LoadRefused(l));
      ValidMeansDistinct(before, home);
      var library := loaders[l].path;
      thrown := false;
      if library == "" {
        return;
      }
      loaders := loaders[l := loaders[l].(loadCount := loaders[l].loadCount + 1)];
      if library in open {
        AddOwnerToAll(library, l);
        bound := if library in stale then bound else bound + {l};
        return;
      }
      if !opens {
        return true;
      }
      bound := bound + {l};
      Register(registered, library, l);
      var any := AnyFactoryOf(library);
      if !any {
        Revive(library, l);
      }
      Purge(library);
      MembersAppend(open, library);
      AppendKeepsDistinct(open, library);
      open := open + [library];
    }

    method AddOwnerToAll(library: string, l: nat)
      modifies this`factories
      ensures factories == WithOwner(old(factories), library, l)
    {
      var todo := factories.Keys;
      while todo != {}
        invariant todo <= factories.Keys == old(factories).Keys
        invariant forall k :: k in factories ==>
                    factories[k] == if k in todo then old(factories)[k] else WithOwner(old(factories), library, l)[k]
        decreases |todo|
      {
        var k :| k in todo;
        if factories[k].library == library {
          factories := factories[k := factories[k].AddOwner(l)];
        }
        todo := todo - {k};
      }
    }

    /** The factories' static initialisers, run while the library is being opened. */
    method Register(keys: seq<Key>, library: string, l: nat)
      requires NoDuplicates(keys)
      modifies this`factories, this`nextId
      ensures factories == old(factories) + Registered(keys, library, l, old(nextId))
      ensures nextId == old(nextId) + |keys|
    {
      hide NoDuplicates, Registered;
      NoneRegistered(library, l, nextId);
      var i := 0;
      while i < |keys|
        invariant 0 <= i <= |keys| && nextId == old(nextId) + i
        invariant factories == old(factories) + Registered(keys[..i], library, l, old(nextId))
      {
        assert keys[..i + 1] == keys[..i] + [keys[i]];
        NotSeenBefore(keys, i);
        RegisterOne(keys[..i], keys[i], library, l, old(nextId));
        factories := factories[keys[i] := MetaObject(nextId, keys[i], library, [l])];
        nextId := nextId + 1;
        i := i + 1;
      }
      assert keys[..i] == keys;
    }

    method AnyFactoryOf(library: string) returns (any: bool)
      ensures any <==> HasFactory(factories, library)
    {
      any := false;
      var todo := factories.Keys;
      while todo != {}
        invariant todo <= factories.Keys
        invariant any <==> exists k :: k in factories && k !in todo && factories[k].library == library
        decreases |todo|
      {
        var k :| k in todo;
        if factories[k].library == library {
          any := true;
        }
        todo := todo - {k};
      }
    }

    method Revive(library: string, l: nat)
      requires DistinctKeys(Members(graveyard))
      modifies this`factories
      ensures factories == old(factories) + Revived(Members(graveyard), library, l)
    {
      hide DistinctKeys, Members, Revived;
      ghost var all := Members(graveyard);
      NoneRevived(library, l);
      var i := 0;
      while i < |graveyard|
        invariant 0 <= i <= |graveyard|
        invariant factories == old(factories) + Revived(Members(graveyard[..i]), library, l)
      {
        assert graveyard[..i + 1] == graveyard[..i] + [graveyard[i]];
        MembersAppend(graveyard[..i], graveyard[i]);
        MembersPrefix(graveyard, i + 1);
        ReviveOne(all, Members(graveyard[..i]), graveyard[i], library, l);
        if graveyard[i].library == library {
          factories := factories[graveyard[i].key := graveyard[i].AddOwner(l)];
        }
        i := i + 1;
      }
      assert graveyard[..i] == graveyard;
    }

    method Purge(library: string)
      modifies this`graveyard
      ensures Members(graveyard) == Members(old(graveyard)) - OfLibrary(Members(old(graveyard)), library)
    {
      var i := 0;
      ghost var was, k := graveyard, 0;
      assert graveyard[0..] == graveyard && graveyard[..0] == [];
      while i < |graveyard|
        invariant 0 <= i <= |graveyard| && k <= |was| && graveyard[i..] == was[k..]
        invariant Members(graveyard[..i]) == Members(was[..k]) - OfLibrary(Members(was[..k]), library)
        decreases |graveyard| - i
      {
        var g := graveyard[i];
        assert was[k..][0] == graveyard[i..][0] == g && graveyard[i + 1..] == was[k..][1..] == was[k + 1..];
        PurgeOne(graveyard[..i], was[..k], g, library);
        assert was[..k + 1] == was[..k] + [g] && graveyard[..i + 1] == graveyard[..i] + [g];
        k := k + 1;
        if g.library == library {
          ghost var front := graveyard[..i];
          graveyard := graveyard[..i] + graveyard[i + 1..];
          assert graveyard[..i] == front;
        } else {
          i := i + 1;
        }
      }
      assert graveyard[..i] == graveyard && graveyard[i..] == [] && was[..k] == was;
    }

    /** closes says whether the library can be closed; if it has to be and cannot, or has no handle
        any more, an exception is thrown. */
    method UnloadLibrary(l: nat, destroyed: bool, closes: bool) returns (count: nat, thrown: bool)
      requires InOrder() && l in loaders
      modifies this
      ensures InOrder() && Abs() == Unload(old(Abs()), l, destroyed, closes)
      ensures thrown <==> old(CloseFails(Abs(), l, closes))
      ensures var before := old(loaders[l]);
              loaders == old(loaders)[l := if before.path == "" || before.pluginCount > 0 || before.loadCount == 0
                                           then before else before.(loadCount := before.loadCount - 1)]
      ensures !thrown ==> count == if loaders[l].path == "" then 0 else loaders[l].loadCount
    {
      hide Valid, NoDuplicates, HasFactory;
      ghost var before := Abs();
      NextKeepsValid(before, home, DoUnload(l, destroyed, closes));
      var library := loaders[l].path;
      thrown := false;
      if library == "" {
        return 0, false;
      }
      if loaders[l].pluginCount == 0 {
        var c: int := loaders[l].loadCount - 1;
        if c == 0 {
          loaders := loaders[l := loaders[l].(loadCount := 0)];
          bound := bound - {l};
          thrown := UnloadInternal(library, l, destroyed, closes);
          if thrown {
            return 0, true;
          }
        } else {
          loaders := loaders[l := loaders[l].(loadCount := if c < 0 then 0 else c)];
        }
      }
      return loaders[l].loadCount, false;
    }

    method UnloadInternal(library: string, l: nat, destroyed: bool, closes: bool) returns (thrown: bool)
      requires NoDuplicates(open)
      modifies this`factories, this`graveyard, this`open, this`stale
      ensures NoDuplicates(open)
      ensures library !in old(open) ==>
                !thrown && factories == old(factories) && graveyard == old(graveyard) && open == old(open)
                    && stale == old(stale)
      ensures library in old(open) ==>
                var dead := Members(old(graveyard)) + Dead(old(factories), library, l);
                var left := HasFactory(factories, library);
                && factories == Released(old(factories), library, l)
                && (thrown <==> !left && (library in old(stale) || !closes))
                && Members(graveyard) == (if left || thrown || !destroyed then dead
                                          else dead - OfLibrary(dead, library))
                && Members(open) == (if !left && !thrown then Members(old(open)) - {library} else Members(old(open)))
                && stale == (if thrown then old(stale) + {library} else old(stale))
    {
      hide HasFactory, NoDuplicates;
      thrown := false;
      if library !in open {
        return;
      }
      DestroyMetaObjects(library, l);
      var any := AnyFactoryOf(library);
      if !any {
        thrown := CloseHandle(library, closes);
        if thrown {
          return;
        }
        if destroyed {
          Purge(library);
        }
        EraseIs(open, library);
        open := Erase(open, library);
      }
    }

    /** The handle is gone afterwards even if closing fails; without one nothing can be closed. */
    method CloseHandle(library: string, closes: bool) returns (thrown: bool)
      modifies this`stale
      ensures thrown <==> library in old(stale) || !closes
      ensures stale == if thrown then old(stale) + {library} else old(stale)
    {
      thrown := library in stale || !closes;
      if thrown {
        stale := stale + {library};
      }
    }

    method DestroyMetaObjects(library: string, l: nat)
      modifies this`factories, this`graveyard
      ensures factories == Released(old(factories), library, l)
      ensures Members(graveyard) == Members(old(graveyard)) + Dead(old(factories), library, l)
    {
      hide Members, Dies, ReleasedExcept, DeadExcept;
      ghost var start := factories;
      NothingReleased(start, library, l);
      var todo := factories.Keys;
      while todo != {}
        invariant todo <= factories.Keys && todo <= start.Keys
        invariant factories == ReleasedExcept(start, todo, library, l)
        invariant Members(graveyard) == Members(old(graveyard)) + DeadExcept(start, todo, library, l)
        decreases |todo|
      {
        var k :| k in todo;
        ReleaseOne(start, todo, k, library, l);
        var f := factories[k];
        if f.library == library && f.IsOwnedBy(l) {
          f := f.RemoveOwner(l);
          if f.owners == [] {
            factories := factories - {k};
            MembersAppend(graveyard, f);
            graveyard := graveyard + [f];
          } else {
            factories := factories[k := f];
          }
        }
        todo := todo - {k};
      }
      AllReleased(start, library, l);
    }
  }

  /** The factories while the names of todo are still to be visited. */
  ghost function ReleasedExcept(factories: Factories, todo: set<Key>, library: string, l: nat): Factories
  {
    map k | k in factories && (k in todo || !Dies(factories[k], library, l)) ::
      if k !in todo && factories[k].library == library && factories[k].IsOwnedBy(l) then factories[k].RemoveOwner(l)
      else factories[k]
  }

  ghost function DeadExcept(factories: Factories, todo: set<Key>, library: string, l: nat): set<MetaObject>
  {
    set k | k in factories && k !in todo && Dies(factories[k], library, l) :: factories[k].RemoveOwner(l)
  }

  lemma NothingReleased(factories: Factories, library: string, l: nat)
    ensures ReleasedExcept(factories, factories.Keys, library, l) == factories
    ensures DeadExcept(factories, factories.Keys, library, l) == {}
  {
  }

  lemma AllReleased(factories: Factories, library: string, l: nat)
    ensures ReleasedExcept(factories, {}, library, l) == Released(factories, library, l)
    ensures DeadExcept(factories, {}, library, l) == Dead(factories, library, l)
  {
    hide Dies;
  }

  lemma ReleaseOne(factories: Factories, todo: set<Key>, k: Key, library: string, l: nat)
    requires k in todo && k in factories
    ensures var now := ReleasedExcept(factories, todo, library, l);
            var next := ReleasedExcept(factories, todo - {k}, library, l);
            var f := factories[k];
            && k in now && now[k] == f
            && next == if !(f.library == library && f.IsOwnedBy(l)) then now
                       else if f.RemoveOwner(l).owners == [] then now - {k} else now[k := f.RemoveOwner(l)]
    ensures var f := factories[k];
            DeadExcept(factories, todo - {k}, library, l) ==
            if Dies(f, library, l) then DeadExcept(factories, todo, library, l) + {f.RemoveOwner(l)}
            else DeadExcept(factories, todo, library, l)
    ensures var f := factories[k]; Dies(f, library, l) <==>
              f.library == library && f.IsOwnedBy(l) && f.RemoveOwner(l).owners == []
  {
    DeadOne(factories, todo, k, library, l);
  }

  lemma DeadOne(factories: Factories, todo: set<Key>, k: Key, library: string, l: nat)
    requires k in todo && k in factories
    ensures var f := factories[k];
            DeadExcept(factories, todo - {k}, library, l) ==
            if Dies(f, library, l) then DeadExcept(factories, todo, library, l) + {f.RemoveOwner(l)}
            else DeadExcept(factories, todo, library, l)
  {
    hide Dies;
    var now, next := DeadExcept(factories, todo, library, l), DeadExcept(factories, todo - {k}, library, l);
    forall g | g in next ensures g in now || (Dies(factories[k], library, l) && g == factories[k].RemoveOwner(l)) {
      var x :| x in factories && x !in todo - {k} && Dies(factories[x], library, l) && g == factories[x].RemoveOwner(l);
    }
    forall g | g in now ensures g in next {
      var x :| x in factories && x !in todo && Dies(factories[x], library, l) && g == factories[x].RemoveOwner(l);
      assert x !in todo - {k};
    }
  }

  lemma AppendKeepsDistinct<T(!new)>(s: seq<T>, x: T)
    requires NoDuplicates(s) && x !in s
    ensures NoDuplicates(s + [x])
  {
  }

  lemma MembersPrefix<T>(s: seq<T>, n: nat)
    requires n <= |s|
    ensures Members(s[..n]) <= Members(s)
  {
  }

  lemma NotSeenBefore(keys: seq<Key>, i: nat)
    requires NoDuplicates(keys) && i < |keys|
    ensures keys[i] !in keys[..i]
  {
  }

  lemma NoneRegistered(library: string, l: nat, nextId: nat)
    ensures Registered([], library, l, nextId) == map[]
  {
  }

  lemma {:induction false} IndexOfAppend<T>(s: seq<T>, x: T, y: T)
    requires y in s || (y == x && x !in s)
    ensures IndexOf(s + [x], y) == if y in s then IndexOf(s, y) else |s|
  {
    if s != [] && s[0] != y {
      assert (s + [x])[1..] == s[1..] + [x];
      IndexOfAppend(s[1..], x, y);
    }
  }

  lemma RegisterOne(keys: seq<Key>, k: Key, library: string, l: nat, nextId: nat)
    requires k !in keys
    ensures Registered(keys + [k], library, l, nextId) ==
            Registered(keys, library, l, nextId)[k := MetaObject(nextId + |keys|, k, library, [l])]
  {
    forall x | x in keys + [k] ensures IndexOf(keys + [k], x) == if x in keys then IndexOf(keys, x) else |keys| {
      IndexOfAppend(keys, k, x);
    }
  }

  lemma PurgeOne(kept: seq<MetaObject>, seen: seq<MetaObject>, g: MetaObject, library: string)
    requires Members(kept) == Members(seen) - OfLibrary(Members(seen), library)
    ensures Members(if g.library == library then kept else kept + [g]) ==
            Members(seen + [g]) - OfLibrary(Members(seen + [g]), library)
  {
    MembersAppend(seen, g);
    MembersAppend(kept, g);
  }

  lemma MembersAppend<T>(s: seq<T>, x: T)
    ensures Members(s + [x]) == Members(s) + {x}
  {
  }

  lemma NoneRevived(library: string, l: nat)
    ensures Revived(Members([]), library, l) == map[]
  {
  }

  lemma NamedIs(all: set<MetaObject>, some: set<MetaObject>, g: MetaObject)
    requires DistinctKeys(all) && some <= all && g in some
    ensures g.key in KeysOf(some) && Named(some, g.key) == g
  {
  }

  lemma KeysOfMore(s: set<MetaObject>, g: MetaObject, library: string)
    ensures var t := OfLibrary(s + {g}, library);
            && t == (if g.library == library then OfLibrary(s, library) + {g} else OfLibrary(s, library))
            && KeysOf(t) == (if g.library == library then KeysOf(OfLibrary(s, library)) + {g.key}
                else KeysOf(OfLibrary(s, library)))
  {
    assert OfLibrary(s + {g}, library) == if g.library == library then OfLibrary(s, library) + {g}
        else OfLibrary(s, library);
  }

  lemma ReviveOne(all: set<MetaObject>, some: set<MetaObject>, g: MetaObject, library: string, l: nat)
    requires DistinctKeys(all) && some + {g} <= all
    ensures Revived(some + {g}, library, l) ==
            if g.library == library then Revived(some, library, l)[g.key := g.AddOwner(l)]
            else Revived(some, library, l)
  {
    hide DistinctKeys, KeysOf;
    var a, b := OfLibrary(some, library), OfLibrary(some + {g}, library);
    KeysOfMore(some, g, library);
    forall k | k in KeysOf(a) ensures k in KeysOf(b) && Named(a, k) == Named(b, k) {
      NamedIs(all, b, Named(a, k));
    }
    if g.library == library {
      NamedIs(all, b, g);
    }
  }
}
