/**
 The rcutils hash map: an array of buckets with a power-of-two length, doubled when the map is
 three quarters full, with allocations that may fail at any point.

 The ghost field model is the finite map it stands for; it is keyed by content, because that is
 what the key comparison looks at.
 */
module HashMap {
  import opened Wrappers
  import opened Rcutils
  import opened PowerOfTwo
  import opened HashTable
  import L = ArrayList

  type Bucket<K, V> = L.State<Entry<K, V>>

  const BUCKET_INITIAL_CAP := 2

  function ItemsOf<K, V>(buckets: seq<Bucket<K, V>>): (t: Table<K, V>)
    ensures |t| == |buckets| && forall i :: 0 <= i < |t| ==> t[i] == L.Items(buckets[i])
  {
    seq(|buckets|, i requires 0 <= i < |buckets| => L.Items(buckets[i]))
  }

  lemma ItemsUpdate<K, V>(buckets: seq<Bucket<K, V>>, i: nat, b: Bucket<K, V>)
    requires i < |buckets|
    ensures ItemsOf(buckets[i := b]) == ItemsOf(buckets)[i := L.Items(b)]
  {
  }

  lemma SizeWithout<X, Y>(m: map<X, Y>, k: X)
    requires k in m
    ensures |m - {k}| == |m| - 1
  {
    assert (m - {k}).Keys == m.Keys - {k};
  }

  lemma SizeAgain<X, Y>(m: map<X, Y>, k: X, v: Y)
    requires k in m
    ensures |m[k := v]| == |m|
  {
    assert m[k := v].Keys == m.Keys;
  }

  lemma SizeWith<X, Y>(m: map<X, Y>, k: X, v: Y)
    requires k !in m
    ensures |m[k := v]| == |m| + 1
  {
    assert m[k := v].Keys == m.Keys + {k};
  }

  ghost predicate ValidBuckets<K, V>(buckets: seq<Bucket<K, V>>)
  {
    forall i :: 0 <= i < |buckets| ==> L.ValidState(buckets[i])
  }

  /** Growth is due when the map holds three quarters of its capacity, rounded down. */
  predicate PastLoadFactor(size: nat, capacity: nat)
  {
    size >= 3 * capacity / 4
  }

  /** The requests for a new entry and the copies of its key and value. */
  predicate EntryGranted(a: Allocator, k: nat)
  {
    a.Granted(k, 1) && a.Granted(k + 1, 1) && a.Granted(k + 2, 1)
  }

  /** The requests for one more entry in a bucket, counted from k. */
  predicate InsertGranted<K, V>(a: Allocator, k: nat, b: Bucket<K, V>)
  {
    if b.Uninitialized? then a.Granted(k, 1) && a.Granted(k + 1, BUCKET_INITIAL_CAP)
    else |b.items| < b.capacity || a.Granted(k, 2 * b.capacity)
  }

  predicate HasSpace<K, V>(b: Bucket<K, V>)
  {
    b.List? && |b.items| < b.capacity
  }

  class HashMap<K(!new), C(==, !new), V(!new)> {
    const keying: Keying<K, C>
    var initialized: bool
    var buckets: array<Bucket<K, V>>
    var size: nat
    const allocator: Allocator
    ghost var model: map<C, Entry<K, V>>

    ghost function Table(): Table<K, V>
      reads this, buckets
    {
      ItemsOf(buckets[..])
    }

    /** The entries in the order of iteration. */
    ghost function Entries(): seq<Entry<K, V>>
      reads this, buckets
    {
      keying.Flatten(Table())
    }

    ghost predicate Valid()
      reads this, buckets, allocator
    {
      && allocator.Valid()
      && (initialized ==>
            && IsPowerOfTwo(buckets.Length)
            && ValidBuckets(buckets[..])
            && keying.Represents(Table(), model)
            && size == |model|)
    }

    /** The load factor the map is meant to keep. */
    ghost predicate Roomy()
      reads this
    {
      4 * size <= 3 * buckets.Length
    }

    constructor ZeroInitialized(keying: Keying<K, C>, allocator: Allocator)
      requires allocator.Valid()
      ensures Valid() && !initialized && this.keying == keying && this.allocator == allocator && model == map[]
                && fresh(buckets)
    {
      this.keying, this.allocator := keying, allocator;
      initialized, size, model := false, 0, map[];
      buckets := new Bucket<K, V>[0];
    }

    method Initialize(initialCapacity: nat) returns (ret: Ret)
      requires Valid() && !initialized && initialCapacity < WORD
      modifies this, allocator
      ensures old(allocator.answers) <= allocator.answers
      ensures ret == OK <==> initialCapacity >= 1 && allocator.NoneRefused(old(allocator.requests))
      ensures ret in {OK, BAD_ALLOC, INVALID_ARGUMENT}
      ensures IsPowerOfTwo(initialCapacity) ==>
                (ret == OK <==> allocator.Granted(old(allocator.requests), 1)
                                && allocator.Granted(old(allocator.requests) + 1, initialCapacity))
      ensures ret == OK ==> forall i :: 0 <= i < buckets.Length ==> buckets[i] == L.Uninitialized
      ensures Valid() && (initialized <==> ret == OK) && (ret == INVALID_ARGUMENT <==> initialCapacity < 1)
      ensures if ret == OK then fresh(buckets) && model == map[] && Roomy()
              else buckets == old(buckets) && model == old(model)
      ensures ret == OK && initialCapacity <= HALF_WORD ==> IsLeastPowerAbove(buckets.Length, initialCapacity)
      ensures ret == OK && initialCapacity > HALF_WORD ==> buckets.Length == 1
    {
      hide Keying.Represents, Keying.Moved;
      if 1 > initialCapacity {
        return INVALID_ARGUMENT;
      }
      var capacity := initialCapacity;
      if And(capacity, capacity - 1) != 0 {
        capacity := NextPowerOfTwo(capacity);
      }
      RoundedIsPower(initialCapacity, capacity);
      PowerOfTwoTest(initialCapacity);
      var ok := allocator.Request(1);
      if ok {
        ok := allocator.Request(capacity);
      }
      if !ok {
        return BAD_ALLOC;
      }
      initialized, size, model := true, 0, map[];
      buckets := AllocateNewMap(capacity);
      keying.NothingRepresents(Table());
      return OK;
    }

    static method AllocateNewMap(capacity: nat) returns (newMap: array<Bucket<K, V>>)
      ensures fresh(newMap) && newMap.Length == capacity
      ensures forall i :: 0 <= i < capacity ==> newMap[i] == L.Uninitialized
    {
      newMap := new Bucket<K, V>[capacity](_ => L.Uninitialized);
    }

    /** Appends an entry to a bucket, creating the bucket's list first when there is none. */
    static method InsertEntry(buckets: array<Bucket<K, V>>, i: nat, e: Entry<K, V>, allocator: Allocator)
      returns (ret: Ret)
      requires i < buckets.Length && ValidBuckets(buckets[..]) && allocator.Valid()
      modifies buckets, allocator
      ensures ValidBuckets(buckets[..]) && ret in {OK, BAD_ALLOC}
      ensures allocator.Valid() && old(allocator.answers) <= allocator.answers
      ensures ret == OK <==> allocator.NoneRefused(old(allocator.requests))
      ensures ret == OK <==> InsertGranted(allocator, old(allocator.requests), old(buckets[i]))
      ensures var t := old(ItemsOf(buckets[..]));
              ItemsOf(buckets[..]) == if ret == OK then t[i := t[i] + [e]] else t
    {
      ret := OK;
      if buckets[i].Uninitialized? {
        var ok := allocator.Request(1);
        if ok {
          ok := allocator.Request(BUCKET_INITIAL_CAP);
        }
        var r := L.Init(buckets[i], BUCKET_INITIAL_CAP, ok);
        ret, buckets[i] := r.0, r.1;
      }
      if ret == OK {
        var ok := true;
        if |buckets[i].items| + 1 > buckets[i].capacity {
          ok := allocator.Request(2 * buckets[i].capacity);
        }
        var r := L.Add(buckets[i], e, ok);
        ret, buckets[i] := r.0, r.1;
      }
    }

    /** Growing the map, or failing to, never changes what it stands for. */
    method CheckAndGrow() returns (ret: Ret)
      requires Valid() && initialized
      modifies this`buckets, allocator
      ensures Valid() && ret in {OK, BAD_ALLOC} && old(allocator.answers) <= allocator.answers
      ensures ret == OK <==> allocator.NoneRefused(old(allocator.requests))
      ensures buckets == old(buckets) || fresh(buckets)
      ensures buckets.Length == if ret == OK && PastLoadFactor(size, old(buckets.Length)) then 2 * old(buckets.Length)
                                else old(buckets.Length)
    {
      hide Keying.Represents, Keying.Moved;
      if !PastLoadFactor(size, buckets.Length) {
        return OK;
      }
      var newCapacity := 2 * buckets.Length;
      DoubleIsPower(buckets.Length);
      var ok := allocator.Request(newCapacity);
      if !ok {
        return BAD_ALLOC;
      }
      var newMap := AllocateNewMap(newCapacity);
      ret := Rehash(newMap);
      if ret != OK {
        return ret;
      }
      buckets := newMap;
    }

    method Rehash(newMap: array<Bucket<K, V>>) returns (ret: Ret)
      requires buckets != newMap && newMap.Length >= 1 && keying.Represents(Table(), model)
      requires forall i :: 0 <= i < newMap.Length ==> newMap[i] == L.Uninitialized
      requires allocator.Valid()
      modifies newMap, allocator
      ensures ret in {OK, BAD_ALLOC}
      ensures allocator.Valid() && old(allocator.answers) <= allocator.answers
      ensures ret == OK <==> allocator.NoneRefused(old(allocator.requests))
      ensures ret == OK ==> ValidBuckets(newMap[..]) && keying.Represents(ItemsOf(newMap[..]), model)
    {
      hide Keying.Represents, Keying.Moved;
      ret := OK;
      keying.StartMoving(Table(), model, ItemsOf(newMap[..]));
      var i := 0;
      while i < buckets.Length
        invariant 0 <= i <= buckets.Length && ret == OK
        invariant allocator.Valid() && old(allocator.answers) <= allocator.answers
        invariant allocator.NoneRefused(old(allocator.requests))
        invariant ValidBuckets(newMap[..]) && keying.Moved(Table(), i, 0, ItemsOf(newMap[..]))
      {
        ret := MoveBucket(newMap, i);
        if ret != OK {
          return ret;
        }
        i := i + 1;
      }
      keying.AllMoved(Table(), ItemsOf(newMap[..]), model);
    }

    method MoveBucket(newMap: array<Bucket<K, V>>, i: nat) returns (ret: Ret)
      requires buckets != newMap && i < buckets.Length
      requires ValidBuckets(newMap[..]) && keying.Moved(Table(), i, 0, ItemsOf(newMap[..]))
      requires allocator.Valid()
      modifies newMap, allocator
      ensures ret in {OK, BAD_ALLOC}
      ensures allocator.Valid() && old(allocator.answers) <= allocator.answers
      ensures ret == OK <==> allocator.NoneRefused(old(allocator.requests))
      ensures ret == OK ==> ValidBuckets(newMap[..]) && keying.Moved(Table(), i + 1, 0, ItemsOf(newMap[..]))
    {
      hide Keying.Represents, Keying.Moved;
      var items := L.Items(buckets[i]);
      ghost var t := Table();
      assert t[i] == items;
      ret := OK;
      var j := 0;
      while j < |items|
        invariant 0 <= j <= |items| && ret == OK && Table() == t
        invariant allocator.Valid() && old(allocator.answers) <= allocator.answers
        invariant allocator.NoneRefused(old(allocator.requests))
        invariant ValidBuckets(newMap[..]) && keying.Moved(t, i, j, ItemsOf(newMap[..]))
      {
        keying.MoveOne(t, i, j, ItemsOf(newMap[..]));
        SlotIsRemainder(items[j].hash, newMap.Length);
        ret := InsertEntry(newMap, items[j].hash % newMap.Length, items[j], allocator);
        if ret != OK {
          return ret;
        }
        j := j + 1;
      }
      keying.NextBucket(t, i, ItemsOf(newMap[..]));
    }

    method FindKey(key: K) returns (keyHash: nat, mapIndex: nat, found: bool, bucketIndex: nat)
      requires Valid() && initialized
      ensures keyHash == keying.hash(keying.content(key))
      ensures found <==> keying.content(key) in model
      ensures mapIndex == BucketOf(keying.content(key))
      ensures found ==> IsAt(keying.content(key), mapIndex, bucketIndex)
    {
      hide Keying.Represents, Keying.Moved;
      keyHash := keying.hash(keying.content(key));
      mapIndex := And(keyHash, buckets.Length - 1);
      MaskIndex(keyHash, buckets.Length);
      found, bucketIndex := FindInBucket(L.Items(buckets[mapIndex]), keyHash, key);
      if found {
        FoundAt(mapIndex, bucketIndex);
      } else {
        NotFound(keying.content(key), mapIndex);
      }
    }

    /** The hashes are compared first; two keys are compared only when those agree. */
    method FindInBucket(items: seq<Entry<K, V>>, keyHash: nat, key: K) returns (found: bool, i: nat)
      ensures found ==> i < |items| && items[i].hash == keyHash && keying.content(items[i].key) == keying.content(key)
      ensures !found ==> forall x :: 0 <= x < |items| ==>
                items[x].hash != keyHash || keying.content(items[x].key) != keying.content(key)
    {
      i := 0;
      while i < |items|
        invariant i <= |items|
        invariant forall x :: 0 <= x < i ==>
                    items[x].hash != keyHash || keying.content(items[x].key) != keying.content(key)
      {
        if items[i].hash == keyHash && keying.content(items[i].key) == keying.content(key) {
          return true, i;
        }
        i := i + 1;
      }
      found := false;
    }

    lemma NotFound(c: C, i: nat)
      requires Valid() && initialized && i == Slot(keying.hash(c), buckets.Length)
      requires forall x :: 0 <= x < |Table()[i]| ==>
                 Table()[i][x].hash != keying.hash(c) || keying.content(Table()[i][x].key) != c
      ensures c !in model
    {
      var items := Table()[i];
      assert keying.Placed(items, buckets.Length, i);
      keying.FindNone(items, c);
      assert keying.Lookup(Table(), c).None?;
    }

    /** The entry for a content stands at this place. */
    ghost predicate IsAt(c: C, i: nat, j: nat)
      reads this, buckets
    {
      && i < buckets.Length && j < |Table()[i]| && c in model
      && Table()[i][j] == model[c] && keying.content(Table()[i][j].key) == c
    }

    lemma FoundAt(i: nat, j: nat)
      requires Valid() && initialized && i < buckets.Length && j < |Table()[i]|
      ensures IsAt(keying.content(Table()[i][j].key), i, j)
    {
      var t: Table<K, V> := Table();
      var e: Entry<K, V> := t[i][j];
      var c := keying.content(e.key);
      keying.FindIs(t[i], j);
      assert keying.Lookup(t, c) == Some(t[i][j]);
    }

    method Set(key: K, value: V) returns (ret: Ret)
      requires Valid()
      modifies this, buckets, allocator
      ensures Valid() && initialized == old(initialized) && old(allocator.answers) <= allocator.answers
      ensures buckets == old(buckets) || fresh(buckets)
      ensures ret == INVALID_ARGUMENT <==> !initialized
      ensures ret in {OK, BAD_ALLOC, INVALID_ARGUMENT}
      ensures var c := keying.content(key);
              model == if ret != OK then old(model)
                       else if c in old(model) then old(model)[c := WithValue(old(model)[c], value)]
                       else old(model)[c := Entry(keying.hash(c), key, value)]
      ensures initialized ==> (ret == OK <==> keying.content(key) in old(model) || old(CanAdd(keying.content(key))))
      ensures allocator.NoneRefused(old(allocator.requests)) ==> ret != BAD_ALLOC && (old(Roomy()) ==> Roomy())
    {
      hide Keying.Represents, Keying.Moved;
      if !initialized {
        return INVALID_ARGUMENT;
      }
      var keyHash, mapIndex, found, bucketIndex := FindKey(key);
      if found {
        ReplaceValue(key, mapIndex, bucketIndex, value);
      } else {
        ret := AddEntry(Entry(keyHash, key, value));
        if ret != OK {
          return;
        }
      }
      ret := CheckAndGrow();
      return OK;
    }

    /** Are all requests granted that adding an entry for a content makes? Three are for the entry
        and the copies of its key and value, the others for its bucket. */
    ghost predicate CanAdd(c: C)
      requires Valid() && initialized
      reads this, buckets, allocator
    {
      EntryGranted(allocator, allocator.requests)
      && InsertGranted(allocator, allocator.requests + 3, buckets[BucketOf(c)])
    }

    ghost function BucketOf(c: C): (i: nat)
      requires Valid() && initialized
      reads this, buckets, allocator
      ensures i < buckets.Length
    {
      Slot(keying.hash(c), buckets.Length)
    }

    /** The bucket of a content has a list that need not grow for another entry. */
    ghost predicate HasRoom(c: C)
      reads this, buckets
    {
      buckets.Length >= 1 && HasSpace(buckets[Slot(keying.hash(c), buckets.Length)])
    }

    method ReplaceValue(key: K, mapIndex: nat, bucketIndex: nat, value: V)
      requires Valid() && initialized && IsAt(keying.content(key), mapIndex, bucketIndex)
      modifies this`model, buckets
      ensures Valid()
      ensures var c := keying.content(key); model == old(model)[c := WithValue(old(model)[c], value)]
    {
      hide Keying.Represents, Keying.Moved;
      ghost var t, c := Table(), keying.content(key);
      keying.ReplaceRepresents(t, model, mapIndex, bucketIndex, value);
      ghost var before := buckets[..];
      SizeAgain(model, c, WithValue(model[c], value));
      var items := buckets[mapIndex].items;
      var bucket := L.List(items[bucketIndex := WithValue(items[bucketIndex], value)], buckets[mapIndex].capacity);
      ItemsUpdate(before, mapIndex, bucket);
      buckets[mapIndex] := bucket;
      model := model[c := WithValue(model[c], value)];
      assert buckets[..] == before[mapIndex := bucket];
    }

    /** Copies the key and the value into a new entry; nothing changes when an allocation fails. */
    method AddEntry(entry: Entry<K, V>) returns (ret: Ret)
      requires Valid() && initialized && entry.hash == keying.hash(keying.content(entry.key))
      requires keying.content(entry.key) !in model
      modifies this`model, this`size, buckets, allocator
      ensures Valid() && ret in {OK, BAD_ALLOC} && old(allocator.answers) <= allocator.answers
      ensures ret == OK <==> allocator.NoneRefused(old(allocator.requests))
      ensures ret == OK <==> old(CanAdd(keying.content(entry.key)))
      ensures model == if ret == OK then old(model)[keying.content(entry.key) := entry] else old(model)
      ensures size == if ret == OK then old(size) + 1 else old(size)
    {
      hide Keying.Represents, Keying.Moved;
      var ok := allocator.Request(1);
      if !ok {
        return BAD_ALLOC;
      }
      var okKey := allocator.Request(1);
      var okValue := allocator.Request(1);
      if !okKey || !okValue {
        return BAD_ALLOC;
      }
      ret := LinkEntry(entry);
    }

    method LinkEntry(entry: Entry<K, V>) returns (ret: Ret)
      requires Valid() && initialized && entry.hash == keying.hash(keying.content(entry.key))
      requires keying.content(entry.key) !in model
      modifies this`model, this`size, buckets, allocator
      ensures Valid() && ret in {OK, BAD_ALLOC} && old(allocator.answers) <= allocator.answers
      ensures ret == OK <==> allocator.NoneRefused(old(allocator.requests))
      ensures ret == OK <==>
              InsertGranted(allocator, old(allocator.requests), old(buckets[BucketOf(keying.content(entry.key))]))
      ensures model == if ret == OK then old(model)[keying.content(entry.key) := entry] else old(model)
      ensures size == if ret == OK then old(size) + 1 else old(size)
    {
      hide Keying.Represents, Keying.Moved;
      var index := And(entry.hash, buckets.Length - 1);
      ghost var t', m' := CanLink(entry, index);
      ret := InsertEntry(buckets, index, entry, allocator);
      if ret == OK {
        model := m';
        size := size + 1;
      }
    }

    lemma CanLink(entry: Entry<K, V>, index: nat) returns (t': Table<K, V>, m': map<C, Entry<K, V>>)
      requires Valid() && initialized && entry.hash == keying.hash(keying.content(entry.key))
      requires keying.content(entry.key) !in model && index == And(entry.hash, buckets.Length - 1)
      ensures index == BucketOf(keying.content(entry.key)) && t' == Table()[index := Table()[index] + [entry]]
      ensures m' == model[keying.content(entry.key) := entry] && |m'| == size + 1
      ensures keying.Represents(t', m')
    {
      hide Keying.Represents, Keying.Moved;
      MaskIndex(entry.hash, buckets.Length);
      keying.InsertRepresents(Table(), model, entry);
      SizeWith(model, keying.content(entry.key), entry);
      t', m' := keying.WithEntry(Table(), entry), model[keying.content(entry.key) := entry];
    }

    method Unset(key: K) returns (ret: Ret)
      requires Valid()
      modifies this`size, this`model, buckets
      ensures Valid()
      ensures ret == if initialized then OK else INVALID_ARGUMENT
      ensures model == if initialized then old(model) - {keying.content(key)} else old(model)
      ensures initialized ==>
                Entries() == if keying.content(key) in old(model)
                             then old(Without(Entries(), keying.content(key)))
                             else old(Entries())
      ensures old(Roomy()) ==> Roomy()
      ensures forall c :: old(HasRoom(c)) || (initialized && c == keying.content(key) && c in old(model)) ==> HasRoom(c)
    {
      hide Keying.Represents, Keying.Moved;
      if !initialized {
        return INVALID_ARGUMENT;
      }
      if size == 0 {
        return OK;
      }
      var keyHash, mapIndex, found, bucketIndex := FindKey(key);
      if !found {
        assert model - {keying.content(key)} == model;
        return OK;
      }
      RemoveAt(key, mapIndex, bucketIndex);
      return OK;
    }

    method RemoveAt(key: K, mapIndex: nat, bucketIndex: nat)
      requires Valid() && initialized && IsAt(keying.content(key), mapIndex, bucketIndex)
      modifies this`size, this`model, buckets
      ensures Valid() && model == old(model) - {keying.content(key)} && size == old(size) - 1
      ensures Entries() == old(Without(Entries(), keying.content(key)))
      ensures forall i :: 0 <= i < buckets.Length && (old(HasSpace(buckets[i])) || i == mapIndex) ==>
                HasSpace(buckets[i])
    {
      hide Keying.Represents, Keying.Moved;
      ghost var t, c := Table(), keying.content(key);
      RemovedFromOrder(c, mapIndex, bucketIndex);
      keying.RemoveRepresents(t, model, mapIndex, bucketIndex);
      ghost var before := buckets[..];
      var r := L.Remove(buckets[mapIndex], bucketIndex);
      ItemsUpdate(before, mapIndex, r.1);
      SizeWithout(model, c);
      SpaceLeft(buckets[mapIndex], bucketIndex);
      buckets[mapIndex] := r.1;
      size := size - 1;
      model := model - {c};
      assert buckets[..] == before[mapIndex := r.1];
    }

    static lemma SpaceLeft(b: Bucket<K, V>, j: nat)
      requires L.ValidState(b) && j < |L.Items(b)|
      ensures HasSpace(L.Remove(b, j).1)
    {
    }

    lemma RemovedFromOrder(c: C, i: nat, j: nat)
      requires Valid() && initialized && IsAt(c, i, j)
      ensures var t := Table();
              keying.Flatten(t[i := L.WithoutIndex(t[i], j)]) == Without(Entries(), c)
    {
      hide Keying.Represents, Keying.Distinct, Keying.Flatten, Keying.Offset, Without;
      var t: Table<K, V> := Table();
      assert keying.content(t[i][j].key) == c;
      keying.OrderIsDistinct(t, model);
      keying.FlattenRemoved(t, i, j);
      keying.FlattenIndex(t, i, j);
      WithoutIs(keying.Flatten(t), keying.Offset(t, i) + j);
    }

    /** The entries without the one for a content. */
    ghost function Without(entries: seq<Entry<K, V>>, c: C): seq<Entry<K, V>>
    {
      if p :| keying.Holds(entries, c, p) then L.WithoutIndex(entries, p) else entries
    }

    lemma WithoutIs(entries: seq<Entry<K, V>>, p: nat)
      requires p < |entries| && keying.Distinct(entries)
      ensures Without(entries, keying.content(entries[p].key)) == L.WithoutIndex(entries, p)
    {
      assert keying.Holds(entries, keying.content(entries[p].key), p);
    }

    method KeyExists(key: K) returns (found: bool)
      requires Valid()
      ensures found <==> initialized && keying.content(key) in model
    {
      hide Keying.Represents, Keying.Moved;
      if !initialized {
        return false;
      }
      if size == 0 {
        return false;
      }
      var _, _, f, _ := FindKey(key);
      return f;
    }

    method Get(key: K) returns (ret: Ret, value: Option<V>)
      requires Valid()
      ensures var c := keying.content(key);
              if !initialized then ret == INVALID_ARGUMENT && value == None
              else if c in model then ret == OK && value == Some(model[c].value)
              else ret == NOT_FOUND && value == None
    {
      hide Keying.Represents, Keying.Moved;
      if !initialized {
        return INVALID_ARGUMENT, None;
      }
      if size == 0 {
        return NOT_FOUND, None;
      }
      var _, mapIndex, found, bucketIndex := FindKey(key);
      if found {
        return OK, Some(buckets[mapIndex].items[bucketIndex].value);
      }
      return NOT_FOUND, None;
    }

    /** The entry after the given key's in the order of iteration, or the first one. */
    method GetNextKeyAndData(previous: Option<K>) returns (ret: Ret, next: Option<Entry<K, V>>)
      requires Valid()
      ensures !initialized ==> ret == INVALID_ARGUMENT
      ensures initialized && previous.Some? && keying.content(previous.value) !in model ==> ret == NOT_FOUND
      ensures initialized ==> IsNext(if previous.None? then None else Some(keying.content(previous.value)), ret, next)
    {
      hide Keying.Represents, Keying.Moved;
      if !initialized {
        return INVALID_ARGUMENT, None;
      }
      if size == 0 {
        NoEntries();
        if previous.Some? {
          NotListed(keying.content(previous.value));
          return NOT_FOUND, None;
        }
        NextIs(None, 0, NO_MORE_ENTRIES, None);
        return NO_MORE_ENTRIES, None;
      }
      if previous.None? {
        keying.OffsetEnd(Table());
        ret, next := SearchFrom(0, 0);
        NextIs(None, 0, ret, next);
      } else {
        ret, next := GetNextAfter(previous.value);
      }
    }

    method GetNextAfter(previous: K) returns (ret: Ret, next: Option<Entry<K, V>>)
      requires Valid() && initialized
      ensures keying.content(previous) !in model ==> ret == NOT_FOUND
      ensures IsNext(Some(keying.content(previous)), ret, next)
    {
      hide Keying.Represents, Keying.Moved;
      var _, mapIndex, found, bucketIndex := FindKey(previous);
      if !found {
        NotListed(keying.content(previous));
        return NOT_FOUND, None;
      }
      PlaceInOrder(keying.content(previous), mapIndex, bucketIndex);
      ret, next := SearchFrom(mapIndex, bucketIndex + 1);
      NextIs(Some(keying.content(previous)), keying.Offset(Table(), mapIndex) + bucketIndex + 1, ret, next);
    }

    /** Position p is where iteration goes on after a previous content. */
    ghost predicate Continues(previous: Option<C>, p: nat)
      reads this, buckets
    {
      if previous.None? then p == 0 else keying.Holds(Entries(), previous.value, p - 1)
    }

    /** What iterating from a previous content must report: the entry at the position where
        iteration goes on, or that there is none. */
    ghost predicate IsNext(previous: Option<C>, ret: Ret, next: Option<Entry<K, V>>)
      reads this, buckets
    {
      forall p: nat :: Continues(previous, p) ==>
        if p < |Entries()| then ret == OK && next == Some(Entries()[p])
        else ret == NO_MORE_ENTRIES && next == None
    }

    lemma NextIs(previous: Option<C>, p: nat, ret: Ret, next: Option<Entry<K, V>>)
      requires forall q: nat :: Continues(previous, q) ==> q == p
      requires if p < |Entries()| then ret == OK && next == Some(Entries()[p])
               else ret == NO_MORE_ENTRIES && next == None
      ensures IsNext(previous, ret, next)
    {
    }

    lemma PlaceInOrder(c: C, i: nat, j: nat)
      requires Valid() && initialized && IsAt(c, i, j)
      ensures forall p :: keying.Holds(Entries(), c, p) ==> p == keying.Offset(Table(), i) + j
    {
      keying.EntriesAreLookups(Table());
      keying.FlattenIndex(Table(), i, j);
    }

    lemma NotListed(c: C)
      requires Valid() && initialized && c !in model
      ensures forall p :: !keying.Holds(Entries(), c, p)
    {
      keying.EntriesAreLookups(Table());
      assert keying.Lookup(Table(), c).None?;
      assert keying.Find(Entries(), c).None?;
    }

    /** The first entry at or behind a place: later buckets are searched from their start. */
    method SearchFrom(startMap: nat, startBucket: nat) returns (ret: Ret, next: Option<Entry<K, V>>)
      requires startMap < buckets.Length && startBucket <= |Table()[startMap]|
      ensures var p := keying.Offset(Table(), startMap) + startBucket;
              if p < |Entries()| then ret == OK && next == Some(Entries()[p])
              else p == |Entries()| && ret == NO_MORE_ENTRIES && next == None
    {
      hide Keying.Flatten, Keying.Offset;
      ghost var t := Table();
      var mapIndex: nat, bucketIndex: nat := startMap, startBucket;
      keying.OffsetEnd(t);
      while mapIndex < buckets.Length
        invariant 0 <= mapIndex <= buckets.Length
        invariant if mapIndex < buckets.Length then bucketIndex <= |t[mapIndex]| else bucketIndex == 0
        invariant keying.Offset(t, startMap) + startBucket == keying.Offset(t, mapIndex) + bucketIndex
      {
        assert t[mapIndex] == L.Items(buckets[mapIndex]);
        if buckets[mapIndex].List? {
          if bucketIndex < |buckets[mapIndex].items| {
            keying.FlattenIndex(t, mapIndex, bucketIndex);
            return OK, Some(buckets[mapIndex].items[bucketIndex]);
          }
        }
        keying.FlattenAt(t, mapIndex);
        bucketIndex := 0;
        mapIndex := mapIndex + 1;
      }
      return NO_MORE_ENTRIES, None;
    }

    lemma NoEntries()
      requires Valid() && initialized && size == 0
      ensures Entries() == []
    {
      keying.EntriesAreLookups(Table());
      assert model == map[];
      if Entries() != [] {
        keying.FindIs(Entries(), 0);
      }
    }

    /** The iteration order lists every key of the map exactly once. */
    lemma EntriesListModel()
      requires Valid() && initialized
      ensures keying.Distinct(Entries())
      ensures forall c :: c in model <==> exists p :: keying.Holds(Entries(), c, p)
      ensures forall p :: 0 <= p < |Entries()| ==>
                keying.content(Entries()[p].key) in model && model[keying.content(Entries()[p].key)] == Entries()[p]
    {
      keying.EntriesAreLookups(Table());
      forall c ensures c in model <==> exists p :: keying.Holds(Entries(), c, p) {
        assert keying.Find(Entries(), c) == keying.Lookup(Table(), c);
      }
      forall p | 0 <= p < |Entries()|
        ensures keying.content(Entries()[p].key) in model && model[keying.content(Entries()[p].key)] == Entries()[p]
      {
        keying.FindIs(Entries(), p);
        assert keying.Find(Entries(), keying.content(Entries()[p].key)) == Some(Entries()[p]);
      }
    }
  }

  // ---------- whole runs ----------

  datatype Op<K, V> = DoSet(key: K, value: V) | DoUnset(key: K)

  /** What the calls make of a finite map; a call that does not return OK leaves it alone. */
  ghost function ModelAfter<K(!new), C(!new), V>(keying: Keying<K, C>, m: map<C, Entry<K, V>>, ops: seq<Op<K, V>>,
                                                 rets: seq<Ret>): map<C, Entry<K, V>>
    requires |rets| == |ops|
  {
    if ops == [] then m
    else
      var n := |ops| - 1;
      ModelNext(keying, ModelAfter(keying, m, ops[..n], rets[..n]), ops[n], rets[n])
  }

  /** Any calls on a new map, with any answers of the allocator. When no request is refused, every
      call succeeds and the map keeps its load factor, from any initial capacity. */
  method Run<K(!new), C(==, !new), V(!new)>(keying: Keying<K, C>, allocator: Allocator, initialCapacity: nat,
                                            ops: seq<Op<K, V>>)
    returns (m: HashMap<K, C, V>, ret: Ret, rets: seq<Ret>)
    requires allocator.Valid() && 1 <= initialCapacity < WORD
    modifies allocator
    ensures fresh(m) && m.Valid() && m.keying == keying && (m.initialized <==> ret == OK)
    ensures ret == OK ==> |rets| == |ops| && m.model == ModelAfter(keying, map[], ops, rets)
    ensures allocator.NoneRefused(old(allocator.requests)) ==>
              ret == OK && (forall r :: r in rets ==> r == OK) && m.Roomy()
  {
    rets := [];
    m := new HashMap<K, C, V>.ZeroInitialized(keying, allocator);
    ret := m.Initialize(initialCapacity);
    if ret != OK {
      return;
    }
    rets := RunOn(m, ops, old(allocator.requests));
  }

  method RunOn<K(!new), C(==, !new), V(!new)>(m: HashMap<K, C, V>, ops: seq<Op<K, V>>, ghost start: nat)
    returns (rets: seq<Ret>)
    requires m.Valid() && m.initialized && start <= m.allocator.requests
    modifies m, m.buckets, m.allocator
    ensures m.Valid() && m.initialized && |rets| == |ops|
    ensures old(m.allocator.answers) <= m.allocator.answers
    ensures m.model == ModelAfter(m.keying, old(m.model), ops, rets)
    ensures m.allocator.NoneRefused(start) ==>
              && old(m.allocator.NoneRefused(start)) && (forall r :: r in rets ==> r == OK)
              && (old(m.Roomy()) ==> m.Roomy())
  {
    hide m.Valid, m.Roomy, m.allocator.NoneRefused, ModelAfter, ModelNext;
    rets := [];
    NoCalls(m.keying, m.model);
    for i := 0 to |ops|
      invariant |rets| == i && (m.buckets == old(m.buckets) || fresh(m.buckets)) && m.initialized && m.Valid()
      invariant start <= m.allocator.requests && old(m.allocator.answers) <= m.allocator.answers
      invariant m.model == ModelAfter(m.keying, old(m.model), ops[..i], rets)
      invariant m.allocator.NoneRefused(start) ==>
                  && old(m.allocator.NoneRefused(start)) && (forall r :: r in rets ==> r == OK)
                  && (old(m.Roomy()) ==> m.Roomy())
    {
      var r := Call(m, ops[i], start);
      OneMoreCall(m.keying, old(m.model), ops[..i], rets, ops[i], r);
      assert ops[..i + 1] == ops[..i] + [ops[i]];
      rets := rets + [r];
    }
    assert ops[..|ops|] == ops;
  }

  /** The finite map after one call. */
  ghost function ModelNext<K(!new), C(!new), V>(keying: Keying<K, C>, m: map<C, Entry<K, V>>, op: Op<K, V>,
                                                r: Ret): map<C, Entry<K, V>>
  {
    var c := keying.content(op.key);
    if r != OK then m
    else if op.DoUnset? then m - {c}
    else if c in m then m[c := WithValue(m[c], op.value)]
    else m[c := Entry(keying.hash(c), op.key, op.value)]
  }

  method Call<K(!new), C(==, !new), V(!new)>(m: HashMap<K, C, V>, op: Op<K, V>, ghost start: nat) returns (r: Ret)
    requires m.Valid() && m.initialized && start <= m.allocator.requests
    modifies m, m.buckets, m.allocator
    ensures m.Valid() && m.initialized && (m.buckets == old(m.buckets) || fresh(m.buckets))
    ensures start <= m.allocator.requests && old(m.allocator.answers) <= m.allocator.answers
    ensures m.model == ModelNext(m.keying, old(m.model), op, r)
    ensures m.allocator.NoneRefused(start) ==>
              old(m.allocator.NoneRefused(start)) && r == OK && (old(m.Roomy()) ==> m.Roomy())
  {
    match op {
      case DoSet(key, value) => r := m.Set(key, value);
      case DoUnset(key) => r := m.Unset(key);
    }
  }

  lemma NoCalls<K(!new), C(!new), V>(keying: Keying<K, C>, m: map<C, Entry<K, V>>)
    ensures ModelAfter(keying, m, [], []) == m
  {
  }

  lemma OneMoreCall<K(!new), C(!new), V>(keying: Keying<K, C>, m: map<C, Entry<K, V>>, ops: seq<Op<K, V>>,
                                         rets: seq<Ret>, op: Op<K, V>, r: Ret)
    requires |rets| == |ops|
    ensures ModelAfter(keying, m, ops + [op], rets + [r]) == ModelNext(keying, ModelAfter(keying, m, ops, rets), op, r)
  {
    assert (ops + [op])[..|ops|] == ops && (rets + [r])[..|rets|] == rets;
  }

  lemma RoundedIsPower(initial: nat, capacity: nat)
    requires 1 <= initial < WORD
    requires if And(initial, initial - 1) == 0 then capacity == initial
             else if initial <= HALF_WORD then IsLeastPowerAbove(capacity, initial)
             else capacity == 1
    ensures IsPowerOfTwo(capacity) && capacity >= 1
    ensures initial <= HALF_WORD ==> IsLeastPowerAbove(capacity, initial)
    ensures initial > HALF_WORD ==> capacity == 1
  {
    PowerOfTwoTest(initial);
    assert IsPowerOfTwo(1) by { assert Pow2(0) == 1; }
    if initial > HALF_WORD && IsPowerOfTwo(initial) {
      var k: nat :| initial == Pow2(k);
      WordIsPow2();
      TopBitBelow(initial, k, 64);
      Pow2Monotone(k, 63);
    }
  }

  lemma DoubleIsPower(n: nat)
    requires IsPowerOfTwo(n)
    ensures IsPowerOfTwo(2 * n)
  {
    var k: nat :| n == Pow2(k);
    assert 2 * n == Pow2(k + 1);
  }

  /** The mask index of a lookup is the modulo index of a rehash. */
  lemma MaskIndex(hash: nat, capacity: nat)
    requires IsPowerOfTwo(capacity)
    ensures capacity >= 1 && And(hash, capacity - 1) == hash % capacity == Slot(hash, capacity)
  {
    var k: nat :| capacity == Pow2(k);
    MaskIsModulo(hash, k);
    SlotIsRemainder(hash, capacity);
  }
}
