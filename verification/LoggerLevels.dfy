/**
 Logger levels: every logger name may have a level, and a logger without one takes the level of
 its nearest ancestor, a.b being the parent of a.b.c. Levels are kept in the hash map with their
 lowest bit marking those set by the user.
 */
module LoggerLevels {
  import opened Wrappers
  import opened Rcutils
  import opened HashTable
  import opened HashMap
  import opened PowerOfTwo
  import F = Find
  import L = ArrayList

  const UNSET := 0
  const SEPARATOR := '.'

  /** The severities that have a name: UNSET, DEBUG, INFO, WARN, ERROR and FATAL. */
  predicate IsSeverity(level: int)
  {
    level in {0, 10, 20, 30, 40, 50}
  }

  /** level | 0x1 */
  function Tag(level: int): int
  {
    if level % 2 == 0 then level + 1 else level
  }

  /** level & ~0x1 */
  function Untag(level: int): int
  {
    level - level % 2
  }

  // ---------- what the levels mean ----------

  /** A name's ancestors are what stands before its dots. */
  ghost predicate IsAncestor(a: string, name: string)
  {
    |a| < |name| && a == name[..|a|] && name[|a|] == SEPARATOR
  }

  ghost predicate IsAncestorOrSelf(a: string, name: string)
  {
    a == name || IsAncestor(a, name)
  }

  lemma AncestorsEndAtDots(a: string, name: string)
    ensures IsAncestor(a, name) <==> exists rest: string :: name == a + "." + rest
  {
    if IsAncestor(a, name) {
      assert name == a + "." + name[|a| + 1..];
    }
  }

  ghost predicate HasLevel(levels: map<string, int>, name: string)
  {
    name in levels && levels[name] != UNSET
  }

  /** a is the nearest ancestor of name, or name itself, that has a level. */
  ghost predicate IsNearest(levels: map<string, int>, name: string, a: string)
  {
    IsAncestorOrSelf(a, name) && HasLevel(levels, a) &&
    forall b :: IsAncestorOrSelf(b, name) && |b| > |a| ==> !HasLevel(levels, b)
  }

  /** The name or an ancestor has a level, so the default does not matter. */
  ghost predicate Inherits(levels: map<string, int>, name: string)
  {
    exists a :: IsNearest(levels, name, a)
  }

  ghost predicate IsEffective(levels: map<string, int>, default: int, name: string, level: int)
  {
    if a :| IsNearest(levels, name, a) then level == levels[a] else level == default
  }

  lemma NearestIsUnique(levels: map<string, int>, name: string, a: string, b: string)
    requires IsNearest(levels, name, a) && IsNearest(levels, name, b)
    ensures a == b
  {
    assert |a| == |b|;
    assert a == name[..|a|] && b == name[..|b|];
  }

  /** The entry of a name matters only to that name and its descendants. */
  lemma OnlyDescendantsChange(levels: map<string, int>, default: int, changed: string, level: int, name: string, r: int)
    requires !IsAncestorOrSelf(changed, name)
    ensures IsEffective(levels[changed := level], default, name, r) <==> IsEffective(levels, default, name, r)
    ensures IsEffective(levels - {changed}, default, name, r) <==> IsEffective(levels, default, name, r)
  {
    SameAncestorsSameLevel(levels, levels[changed := level], default, name, r);
    SameAncestorsSameLevel(levels, levels - {changed}, default, name, r);
  }

  lemma SameAncestorsSameLevel(levels: map<string, int>, levels': map<string, int>, default: int, name: string, r: int)
    requires forall a :: IsAncestorOrSelf(a, name) ==>
               (HasLevel(levels, a) <==> HasLevel(levels', a)) && (HasLevel(levels, a) ==> levels[a] == levels'[a])
    ensures IsEffective(levels', default, name, r) <==> IsEffective(levels, default, name, r)
  {
    forall a ensures IsNearest(levels, name, a) <==> IsNearest(levels', name, a) {
    }
    if a :| IsNearest(levels, name, a) {
      forall b, c | IsNearest(levels, name, b) && IsNearest(levels', name, c) ensures b == c {
        NearestIsUnique(levels, name, b, c);
      }
    }
  }

  // ---------- purging while iterating ----------

  ghost function Survivors<K, V>(entries: seq<Entry<K, V>>, doomed: Entry<K, V> -> bool): seq<Entry<K, V>>
  {
    if entries == [] then []
    else
      var n := |entries| - 1;
      Survivors(entries[..n], doomed) + if doomed(entries[n]) then [] else [entries[n]]
  }

  lemma SurvivorsStep<K, V>(entries: seq<Entry<K, V>>, p: nat, doomed: Entry<K, V> -> bool)
    requires p < |entries|
    ensures var a := Survivors(entries[..p], doomed);
            var now, next := a + entries[p..], Survivors(entries[..p + 1], doomed) + entries[p + 1..];
            && |now| == |a| + |entries| - p && now[|a|] == entries[p]
            && (p + 1 < |entries| ==> now[|a| + 1] == entries[p + 1])
            && next == if doomed(entries[p]) then L.WithoutIndex(now, |a|) else now
  {
    assert entries[..p + 1][..p] == entries[..p];
  }

  /** The contents removed when the first p entries have been visited. */
  ghost function Gone<K(!new), C(!new), V>(keying: Keying<K, C>, entries: seq<Entry<K, V>>, p: nat,
                                           doomed: Entry<K, V> -> bool): set<C>
    requires p <= |entries|
  {
    set j | 0 <= j < p && doomed(entries[j]) :: keying.content(entries[j].key)
  }

  lemma GoneStep<K(!new), C(!new), V>(keying: Keying<K, C>, entries: seq<Entry<K, V>>, p: nat,
                                      doomed: Entry<K, V> -> bool)
    requires p < |entries|
    ensures Gone(keying, entries, p + 1, doomed) ==
            Gone(keying, entries, p, doomed) + if doomed(entries[p]) then {keying.content(entries[p].key)} else {}
  {
  }

  lemma NothingGone<K(!new), C(!new), V>(keying: Keying<K, C>, entries: seq<Entry<K, V>>, doomed: Entry<K, V> -> bool)
    ensures Gone(keying, entries, 0, doomed) == {}
  {
  }

  /** The loop of set_logger_level: it goes from key to key, fetching the next key before the
      previous one is removed. Every entry is visited exactly once, in order, whatever is removed. */
  method Purge<K(!new), C(==, !new), V(!new)>(m: HashMap<K, C, V>, doomed: Entry<K, V> -> bool)
    returns (ghost visited: seq<Entry<K, V>>)
    requires m.Valid() && m.initialized
    modifies m`size, m`model, m.buckets
    ensures m.Valid()
    ensures visited == old(m.Entries())
    ensures m.Entries() == Survivors(old(m.Entries()), doomed)
    ensures m.model == map c | c in old(m.model) && !doomed(old(m.model)[c]) :: old(m.model)[c]
    ensures forall c :: old(m.HasRoom(c)) || (c in old(m.model) && doomed(old(m.model)[c])) ==> m.HasRoom(c)
  {
    hide *;
    ghost var entries, before, p: nat := m.Entries(), m.model, 0;
    visited := [];
    NothingPurged(m, doomed);
    NothingGone(m.keying, entries, doomed);
    var ret, next := m.GetNextKeyAndData(None);
    NextIsFirst(m, ret, next);
    while ret == OK
      invariant p <= |entries| && visited == entries[..p] && m.Valid() && m.initialized
      invariant Purged(m, entries, before, p, doomed)
      invariant forall c :: old(m.HasRoom(c)) || c in Gone(m.keying, entries, p, doomed) ==> m.HasRoom(c)
      invariant if p < |entries| then ret == OK && next == Some(entries[p]) else ret == NO_MORE_ENTRIES
      decreases |entries| - p
    {
      var entry := next.value;
      visited := visited + [entry];
      ret, next := m.GetNextKeyAndData(Some(entry.key));
      NextIsNext(m, entries, before, p, doomed, ret, next);
      GoneStep(m.keying, entries, p, doomed);
      if doomed(entry) {
        PurgeOne(m, entries, before, p, doomed, entry.key);
      } else {
        KeepOne(m, entries, before, p, doomed);
      }
      p := p + 1;
    }
    AllPurged(m, entries, before, doomed);
  }

  /** The map while Purge stands at position p of its original entries. */
  ghost predicate Purged<K(!new), C(!new), V(!new)>(m: HashMap<K, C, V>, entries: seq<Entry<K, V>>,
                                                    before: map<C, Entry<K, V>>,
                                                    p: nat, doomed: Entry<K, V> -> bool)
    reads m, m.buckets
  {
    && p <= |entries|
    && m.Entries() == Survivors(entries[..p], doomed) + entries[p..]
    && m.model == before - Gone(m.keying, entries, p, doomed)
    && m.keying.Distinct(entries)
    && (forall c :: c in before <==> exists j :: m.keying.Holds(entries, c, j))
    && (forall j :: 0 <= j < |entries| ==>
          m.keying.content(entries[j].key) in before && before[m.keying.content(entries[j].key)] == entries[j])
  }

  lemma NothingPurged<K(!new), C(!new), V(!new)>(m: HashMap<K, C, V>, doomed: Entry<K, V> -> bool)
    requires m.Valid() && m.initialized
    ensures Purged(m, m.Entries(), m.model, 0, doomed)
  {
    hide m.Valid, m.keying.Distinct;
    m.EntriesListModel();
    assert Gone(m.keying, m.Entries(), 0, doomed) == {};
  }

  lemma NextIsFirst<K(!new), C(!new), V(!new)>(m: HashMap<K, C, V>, ret: Ret, next: Option<Entry<K, V>>)
    requires m.IsNext(None, ret, next)
    ensures if 0 < |m.Entries()| then ret == OK && next == Some(m.Entries()[0]) else ret == NO_MORE_ENTRIES
  {
    assert m.Continues(None, 0);
  }

  lemma NextIsNext<K(!new), C(!new), V(!new)>(m: HashMap<K, C, V>, entries: seq<Entry<K, V>>,
                                              before: map<C, Entry<K, V>>,
                                              p: nat, doomed: Entry<K, V> -> bool, ret: Ret, next: Option<Entry<K, V>>)
    requires p < |entries| && Purged(m, entries, before, p, doomed)
    requires m.IsNext(Some(m.keying.content(entries[p].key)), ret, next)
    ensures if p + 1 < |entries| then ret == OK && next == Some(entries[p + 1]) else ret == NO_MORE_ENTRIES
  {
    var q := |Survivors(entries[..p], doomed)|;
    SurvivorsStep(entries, p, doomed);
    assert m.keying.Holds(m.Entries(), m.keying.content(entries[p].key), q);
    assert m.Continues(Some(m.keying.content(entries[p].key)), q + 1);
  }

  lemma KeepOne<K(!new), C(!new), V(!new)>(m: HashMap<K, C, V>, entries: seq<Entry<K, V>>, before: map<C, Entry<K, V>>,
                                           p: nat, doomed: Entry<K, V> -> bool)
    requires p < |entries| && Purged(m, entries, before, p, doomed) && !doomed(entries[p])
    ensures Purged(m, entries, before, p + 1, doomed)
  {
    hide m.keying.Distinct;
    SurvivorsStep(entries, p, doomed);
    GoneStep(m.keying, entries, p, doomed);
  }

  method PurgeOne<K(!new), C(==, !new), V(!new)>(m: HashMap<K, C, V>, ghost entries: seq<Entry<K, V>>,
                                                 ghost before: map<C, Entry<K, V>>, ghost p: nat,
                                                 ghost doomed: Entry<K, V> -> bool, key: K)
    requires m.Valid() && m.initialized && p < |entries| && Purged(m, entries, before, p, doomed)
    requires doomed(entries[p]) && entries[p].key == key
    modifies m`size, m`model, m.buckets
    ensures m.Valid() && Purged(m, entries, before, p + 1, doomed)
    ensures forall c :: old(m.HasRoom(c)) || c == m.keying.content(key) ==> m.HasRoom(c)
  {
    hide m.Valid, m.HasRoom, m.keying.Distinct, Survivors, Gone;
    ghost var q := |Survivors(entries[..p], doomed)|;
    SurvivorsStep(entries, p, doomed);
    GoneStep(m.keying, entries, p, doomed);
    RemovedAt(m, q);
    var ret := m.Unset(key);
  }

  lemma RemovedAt<K(!new), C(!new), V(!new)>(m: HashMap<K, C, V>, q: nat)
    requires m.Valid() && m.initialized && q < |m.Entries()|
    ensures m.keying.content(m.Entries()[q].key) in m.model
    ensures m.Without(m.Entries(), m.keying.content(m.Entries()[q].key)) == L.WithoutIndex(m.Entries(), q)
  {
    hide m.keying.Distinct;
    m.EntriesListModel();
    m.WithoutIs(m.Entries(), q);
  }

  lemma AllPurged<K(!new), C(!new), V(!new)>(m: HashMap<K, C, V>, entries: seq<Entry<K, V>>,
                                             before: map<C, Entry<K, V>>,
                                             doomed: Entry<K, V> -> bool)
    requires Purged(m, entries, before, |entries|, doomed)
    ensures entries[..|entries|] == entries && m.Entries() == Survivors(entries, doomed)
    ensures m.model == map c | c in before && !doomed(before[c]) :: before[c]
    ensures forall c :: c in before && doomed(before[c]) ==> c in Gone(m.keying, entries, |entries|, doomed)
  {
    hide m.keying.Distinct;
    assert entries[..|entries|] == entries;
    forall c | c in before ensures c in Gone(m.keying, entries, |entries|, doomed) <==> doomed(before[c]) {
      var j :| m.keying.Holds(entries, c, j);
      assert before[c] == entries[j];
    }
  }

  // ---------- the loggers ----------

  type Severities = HashMap<string, string, int>

  class Loggers {
    const severities: Severities
    var mapValid: bool
    var defaultLevel: int

    /** The levels that are set, without their tags. */
    ghost function Levels(): map<string, int>
      reads severities
    {
      LevelsOf(severities.model)
    }

    /** Every entry was set by the user and carries the tag. */
    ghost predicate Valid()
      reads this, severities, severities.buckets, severities.allocator
    {
      && severities.Valid() && (forall s :: severities.keying.content(s) == s)
      && (mapValid ==> severities.initialized)
      && (forall k :: k in severities.model ==> severities.model[k].key == k && severities.model[k].value % 2 == 1)
    }

    constructor (hash: string -> nat, allocator: Allocator)
      requires allocator.Valid()
      modifies allocator
      ensures Valid() && fresh(severities) && fresh(severities.buckets) && severities.allocator == allocator
      ensures mapValid ==> Levels() == map[]
      ensures old(allocator.answers) <= allocator.answers
      ensures mapValid <==>
                allocator.Granted(old(allocator.requests), 1) && allocator.Granted(old(allocator.requests) + 1, 2)
      ensures mapValid ==> forall i :: 0 <= i < severities.buckets.Length ==> severities.buckets[i] == L.Uninitialized
      ensures defaultLevel == 20
    {
      var m := new HashMap<string, string, int>.ZeroInitialized(Keying((s: string) => s, hash), allocator);
      severities := m;
      defaultLevel := 20;
      new;
      TwoIsPower();
      var ret := severities.Initialize(2);
      mapValid := ret == OK;
    }

    method GetSeverityLevel(name: string) returns (ret: Ret, level: int)
      requires Valid()
      ensures !severities.initialized ==> ret == INVALID_ARGUMENT
      ensures severities.initialized ==> ret == if name in Levels() then OK else NOT_FOUND
      ensures ret == OK ==> level == Levels()[name]
    {
      hide severities.Valid;
      var value;
      ret, value := severities.Get(name);
      level := if ret == OK then Untag(value.value) else UNSET;
    }

    /** Loggers without a level of their own or inherited take the new default; all others keep theirs. */
    method SetDefaultLevel(level: int)
      requires Valid()
      modifies this`defaultLevel
      ensures Valid()
      ensures forall name, r :: IsEffective(Levels(), defaultLevel, name, r) <==>
                (if Inherits(Levels(), name) then old(IsEffective(Levels(), defaultLevel, name, r))
                 else r == if level == UNSET then 20 else level)
    {
      defaultLevel := if level == UNSET then 20 else level;
    }

    /** copied says whether the name can be copied for the walk over its ancestors. */
    method GetEffectiveLevel(name: string, copied: bool) returns (level: int)
      requires Valid()
      ensures !severities.initialized ==> level == -1
      ensures severities.initialized && copied ==> IsEffective(Levels(), defaultLevel, name, level)
      ensures severities.initialized && !copied ==> level == -1 || IsEffective(Levels(), defaultLevel, name, level)
    {
      hide severities.Valid, IsEffective, IsNearest, LevelsOf;
      if !severities.initialized {
        return -1;
      }
      if severities.size == 0 {
        NoLevels();
        DefaultWithoutLevels(Levels(), defaultLevel, name);
        return defaultLevel;
      }
      var ret, exact := GetSeverityLevel(name);
      if ret == OK && exact != UNSET {
        SelfIsNearest(Levels(), defaultLevel, name);
        return exact;
      }
      if !copied {
        return -1;
      }
      level := WalkAncestors(name);
    }

    lemma NoLevels()
      requires Valid() && severities.initialized && severities.size == 0
      ensures Levels() == map[]
    {
      assert severities.model == map[];
    }

    method WalkAncestors(name: string) returns (level: int)
      requires Valid() && severities.initialized && !HasLevel(Levels(), name)
      ensures IsEffective(Levels(), defaultLevel, name, level)
    {
      hide severities.Valid, IsEffective, IsNearest, NoneFrom;
      var length: nat := |name|;
      OnlySelf(Levels(), name);
      while true
        invariant length <= |name|
        invariant NoneFrom(Levels(), name, length)
        decreases length
      {
        var index := F.FindLastN(name, SEPARATOR, length);
        if index.None? {
          NothingInherited(Levels(), defaultLevel, name, length);
          return defaultLevel;
        }
        AncestorAt(Levels(), defaultLevel, name, index.value, length);
        length := index.value;
        var ret, found := GetSeverityLevel(name[..length]);
        if ret == OK && found != UNSET {
          return found;
        }
      }
    }

    /** Can the name be copied, and are all requests granted that storing it makes? An old entry
        is removed before, so that its bucket has room. */
    ghost predicate CanStore(name: string, copied: bool)
      requires Valid() && mapValid
      reads this, severities, severities.buckets, severities.allocator
    {
      copied && if name in Levels() then EntryGranted(severities.allocator, severities.allocator.requests)
                else severities.CanAdd(name)
    }

    /** Setting a level removes the old entry first, so a failed set leaves the name without one;
        for a non-empty name nothing else changes. */
    method SetLevel(name: string, level: int, copied: bool) returns (ret: Ret)
      requires Valid()
      modifies this`defaultLevel, severities, severities.buckets, severities.allocator
      ensures Valid() && mapValid == old(mapValid) && old(severities.allocator.answers) <= severities.allocator.answers
      ensures severities.buckets == old(severities.buckets) || fresh(severities.buckets)
      ensures !mapValid ==> ret == ERROR && defaultLevel == old(defaultLevel)
      ensures mapValid && !IsSeverity(level) ==> ret == INVALID_ARGUMENT
      ensures !mapValid || !IsSeverity(level) ==> Levels() == old(Levels()) && defaultLevel == old(defaultLevel)
      ensures mapValid && IsSeverity(level) ==>
                && ret in {OK, ERROR} && (ret == OK <==> old(CanStore(name, copied)))
                && Levels() == (if old(CanStore(name, copied)) then old(Levels())[name := level]
                                else old(Levels()) - {name})
                && defaultLevel == (if name == "" then level else old(defaultLevel))
      ensures mapValid && IsSeverity(level) ==>
                (name in old(Levels()) && name !in Levels() <==> name in old(Levels()) && !old(CanStore(name, copied)))
      ensures ret == OK && level != UNSET ==> IsEffective(Levels(), defaultLevel, name, level)
      ensures name != "" ==> OthersKeep(old(Levels()), Levels(), defaultLevel, name)
    {
      hide severities.Valid, IsEffective, OthersKeep, IsAncestorOrSelf;
      NothingChanged(Levels(), defaultLevel, name);
      if !mapValid {
        return ERROR;
      }
      if !IsSeverity(level) {
        return INVALID_ARGUMENT;
      }
      ghost var before := severities.model;
      var known := severities.KeyExists(name);
      if known {
        RemoveCached(name);
      }
      assert severities.model == before - {name};
      LevelsWithout(before, name);
      hide LevelsOf;
      ret := AddKey(name, level, copied);
      if name == "" {
        defaultLevel := level;
      }
      LevelsChanged(old(Levels()), Levels(), defaultLevel, name, level);
    }

    method RemoveCached(name: string)
      requires Valid() && severities.initialized
      modifies severities`size, severities`model, severities.buckets
      ensures Valid() && severities.model == old(severities.model) - {name}
      ensures name in old(severities.model) ==> severities.HasRoom(name)
    {
      hide severities.Valid;
      ghost var before := severities.model;
      ghost var visited := Purge(severities, IsReplacedBy(name));
      forall k | k in before ensures IsReplacedBy(name)(before[k]) <==> k == name {
        assert before[k].key == k && before[k].value % 2 == 1;
      }
    }

    method AddKey(name: string, level: int, copied: bool) returns (ret: Ret)
      requires Valid() && severities.initialized && name !in severities.model && IsSeverity(level)
      modifies severities, severities.buckets, severities.allocator
      ensures Valid() && severities.initialized && old(severities.allocator.answers) <= severities.allocator.answers
      ensures severities.buckets == old(severities.buckets) || fresh(severities.buckets)
      ensures ret in {OK, ERROR} && (ret == OK <==> copied && old(severities.CanAdd(name)))
      ensures Levels() == if ret == OK then old(Levels())[name := level] else old(Levels())
    {
      hide severities.Valid, severities.CanAdd, LevelsOf;
      var alreadyExists := severities.KeyExists(name);
      if !alreadyExists && !copied {
        return ERROR;
      }
      LevelsWith(severities.model, name, Entry(severities.keying.hash(name), name, Tag(level)), level);
      ret := severities.Set(name, Tag(level));
      if ret != OK {
        return ERROR;
      }
    }
  }

  /** What setting a level purges: the entry of the name itself, and entries of names that start
      with it and were not set by the user. */
  function IsReplacedBy(name: string): Entry<string, int> -> bool
  {
    (e: Entry<string, int>) => name <= e.key && (|e.key| == |name| || e.value % 2 == 0)
  }

  ghost function LevelsOf(model: map<string, Entry<string, int>>): map<string, int>
  {
    map k | k in model :: Untag(model[k].value)
  }

  lemma LevelsWithout(model: map<string, Entry<string, int>>, name: string)
    ensures LevelsOf(model - {name}) == LevelsOf(model) - {name}
  {
  }

  lemma LevelsWith(model: map<string, Entry<string, int>>, name: string, entry: Entry<string, int>, level: int)
    requires IsSeverity(level) && entry.value == Tag(level)
    ensures LevelsOf(model[name := entry]) == LevelsOf(model)[name := level]
    ensures entry.value % 2 == 1
  {
  }

  /** Names that are neither the given one nor its descendants have the same effective level. */
  ghost predicate OthersKeep(was: map<string, int>, now: map<string, int>, default: int, name: string)
  {
    forall other, r :: !IsAncestorOrSelf(name, other) ==>
        (IsEffective(now, default, other, r) <==> IsEffective(was, default, other, r))
  }

  lemma NothingChanged(levels: map<string, int>, default: int, name: string)
    ensures OthersKeep(levels, levels, default, name)
  {
  }

  lemma LevelsChanged(was: map<string, int>, now: map<string, int>, default: int, name: string, level: int)
    requires now == was[name := level] || now == was - {name}
    ensures name in now && level != UNSET ==> IsEffective(now, default, name, level)
    ensures OthersKeep(was, now, default, name)
  {
    if name in now && level != UNSET {
      SelfIsNearest(now, default, name);
    }
    forall other, r | !IsAncestorOrSelf(name, other)
      ensures IsEffective(now, default, other, r) <==> IsEffective(was, default, other, r)
    {
      OnlyDescendantsChange(was, default, name, level, other, r);
    }
  }

  /** A level that is set again when the name cannot be copied is forgotten: the logger falls back
      to the default. */
  method ForgottenLevel() returns (first: int, ret: Ret, second: int)
    ensures first == 40 && ret == ERROR && second == 20
  {
    var loggers := NewLoggers("a");
    hide *;
    NamedSeverities();
    MapIsUsable(loggers);
    ret := loggers.SetLevel("a", 40, true);
    MapIsUsable(loggers);
    first := loggers.GetEffectiveLevel("a", true);
    EffectiveIsUnique(loggers.Levels(), loggers.defaultLevel, "a", first, 40);
    NoCopyNoStore(loggers, "a");
    ret := loggers.SetLevel("a", 50, false);
    MapIsUsable(loggers);
    second := loggers.GetEffectiveLevel("a", true);
    DefaultWithoutLevels(loggers.Levels(), loggers.defaultLevel, "a");
    EffectiveIsUnique(loggers.Levels(), loggers.defaultLevel, "a", second, 20);
  }

  /** With an allocator that refuses nothing any first level can be stored. */
  method NewLoggers(name: string) returns (loggers: Loggers)
    ensures fresh(loggers) && fresh(loggers.severities) && fresh(loggers.severities.buckets)
              && fresh(loggers.severities.allocator)
    ensures loggers.Valid() && loggers.mapValid && loggers.Levels() == map[] && loggers.defaultLevel == 20
    ensures loggers.CanStore(name, true)
  {
    var allocator := new Allocator((_, _) => true);
    loggers := new Loggers(_ => 0, allocator);
  }

  lemma NamedSeverities()
    ensures IsSeverity(40) && IsSeverity(50) && 40 != UNSET
  {
  }

  lemma MapIsUsable(loggers: Loggers)
    requires loggers.Valid() && loggers.mapValid
    ensures loggers.severities.initialized
  {
  }

  lemma NoCopyNoStore(loggers: Loggers, name: string)
    requires loggers.Valid() && loggers.mapValid
    ensures !loggers.CanStore(name, false)
  {
  }

  lemma TwoIsPower()
    ensures IsPowerOfTwo(2)
  {
    assert Pow2(1) == 2;
  }

  lemma EffectiveIsUnique(levels: map<string, int>, default: int, name: string, a: int, b: int)
    requires IsEffective(levels, default, name, a) && IsEffective(levels, default, name, b)
    ensures a == b
  {
  }

  /** No name from name itself down to ancestors of the given length has a level. */
  ghost predicate NoneFrom(levels: map<string, int>, name: string, length: nat)
  {
    forall a :: IsAncestorOrSelf(a, name) && |a| >= length ==> !HasLevel(levels, a)
  }

  lemma OnlySelf(levels: map<string, int>, name: string)
    requires !HasLevel(levels, name)
    ensures NoneFrom(levels, name, |name|)
  {
  }

  lemma DefaultWithoutLevels(levels: map<string, int>, default: int, name: string)
    requires levels == map[]
    ensures IsEffective(levels, default, name, default)
  {
  }

  lemma SelfIsNearest(levels: map<string, int>, default: int, name: string)
    requires HasLevel(levels, name)
    ensures IsEffective(levels, default, name, levels[name])
  {
    assert IsNearest(levels, name, name);
    NearestDecides(levels, default, name, name);
  }

  lemma NearestDecides(levels: map<string, int>, default: int, name: string, a: string)
    requires IsNearest(levels, name, a)
    ensures IsEffective(levels, default, name, levels[a])
  {
    forall b | IsNearest(levels, name, b) ensures b == a {
      NearestIsUnique(levels, name, a, b);
    }
  }

  lemma AncestorAt(levels: map<string, int>, default: int, name: string, i: nat, length: nat)
    requires i < length <= |name| && name[i] == SEPARATOR && forall j :: i < j < length ==> name[j] != SEPARATOR
    requires NoneFrom(levels, name, length)
    ensures HasLevel(levels, name[..i]) ==> IsEffective(levels, default, name, levels[name[..i]])
    ensures !HasLevel(levels, name[..i]) ==> NoneFrom(levels, name, i)
  {
    forall a | IsAncestorOrSelf(a, name) && |a| > i ensures !HasLevel(levels, a) {
    }
    if HasLevel(levels, name[..i]) {
      assert IsNearest(levels, name, name[..i]);
      NearestDecides(levels, default, name, name[..i]);
    }
  }

  lemma NothingInherited(levels: map<string, int>, default: int, name: string, length: nat)
    requires length <= |name| && NoneFrom(levels, name, length)
    requires forall j :: 0 <= j < length ==> name[j] != SEPARATOR
    ensures IsEffective(levels, default, name, default)
  {
    forall a | IsAncestorOrSelf(a, name) ensures !HasLevel(levels, a) {
    }
  }
}
