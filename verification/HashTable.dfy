/**
 A chained hash table as a value: what a lookup finds, and how inserting, replacing, removing
 and rehashing change that.

 Two keys are the same when they have the same content. Any hash function consistent with the
 key comparison is then a function of the content.
 */
module HashTable {
  import opened Wrappers
  import L = ArrayList
  import P = PowerOfTwo

  datatype Entry<K, V> = Entry(hash: nat, key: K, value: V)

  function WithValue<K, V>(e: Entry<K, V>, v: V): Entry<K, V>
  {
    Entry(e.hash, e.key, v)
  }

  /** The bucket a hash belongs to: the remainder, by repeated subtraction. */
  function Slot(h: nat, buckets: nat): (r: nat)
    requires buckets >= 1
    ensures r < buckets
  {
    if h < buckets then h else Slot(h - buckets, buckets)
  }

  lemma {:induction false} SlotIsRemainder(h: nat, buckets: nat)
    requires buckets >= 1
    ensures Slot(h, buckets) == h % buckets
  {
    if h >= buckets {
      SlotIsRemainder(h - buckets, buckets);
      P.Remainder(h, buckets, (h - buckets) / buckets + 1, (h - buckets) % buckets);
    }
  }

  type Table<K, V> = seq<seq<Entry<K, V>>>

  datatype Keying<!K(!new), !C(!new)> = Keying(content: K -> C, hash: C -> nat)
  {
    ghost predicate Holds<V>(items: seq<Entry<K, V>>, c: C, j: int)
    {
      0 <= j < |items| && content(items[j].key) == c
    }

    ghost predicate Distinct<V>(items: seq<Entry<K, V>>)
    {
      forall i, j :: 0 <= i < j < |items| ==> content(items[i].key) != content(items[j].key)
    }

    /** What a bucket, or any list of entries, holds for a content. */
    ghost function Find<V>(items: seq<Entry<K, V>>, c: C): Option<Entry<K, V>>
    {
      if exists j :: Holds(items, c, j) then
        var j :| Holds(items, c, j);
        Some(items[j])
      else None
    }

    ghost predicate Placed<V>(items: seq<Entry<K, V>>, buckets: nat, i: nat)
    {
      buckets >= 1 &&
      forall j :: 0 <= j < |items| ==> items[j].hash == hash(content(items[j].key)) && Slot(items[j].hash, buckets) == i
    }

    ghost predicate Good<V>(t: Table<K, V>)
    {
      |t| >= 1 && forall i :: 0 <= i < |t| ==> Placed(t[i], |t|, i) && Distinct(t[i])
    }

    ghost function Lookup<V>(t: Table<K, V>, c: C): Option<Entry<K, V>>
      requires |t| >= 1
    {
      Find(t[Slot(hash(c), |t|)], c)
    }

    /** Lookup in the part of t that a rehash has moved when it stands at entry j of bucket i. */
    ghost function LookupMoved<V>(t: Table<K, V>, c: C, i: nat, j: nat): Option<Entry<K, V>>
      requires |t| >= 1 && (i < |t| ==> j <= |t[i]|)
    {
      var b := Slot(hash(c), |t|);
      if b < i then Find(t[b], c) else if b == i then Find(t[b][..j], c) else None
    }

    /** The table stands for the finite map m. */
    ghost predicate Represents<V>(t: Table<K, V>, m: map<C, Entry<K, V>>)
    {
      Good(t) && forall c :: Lookup(t, c) == if c in m then Some(m[c]) else None
    }

    /** A rehash that stands at entry j of bucket i of t has built t'. */
    ghost predicate Moved<V>(t: Table<K, V>, i: nat, j: nat, t': Table<K, V>)
    {
      && Good(t) && Good(t') && (i < |t| ==> j <= |t[i]|)
      && forall c :: Lookup(t', c) == LookupMoved(t, c, i, j)
    }

    // ---------- one bucket ----------

    lemma FindIs<V>(items: seq<Entry<K, V>>, j: nat)
      requires j < |items| && Distinct(items)
      ensures Find(items, content(items[j].key)) == Some(items[j])
    {
      assert Holds(items, content(items[j].key), j);
    }

    lemma FindNone<V>(items: seq<Entry<K, V>>, c: C)
      requires forall j :: 0 <= j < |items| ==> content(items[j].key) != c
      ensures Find(items, c).None?
    {
    }

    lemma FindAppend<V>(items: seq<Entry<K, V>>, e: Entry<K, V>, c: C)
      requires Distinct(items + [e])
      ensures Find(items + [e], c) == if content(e.key) == c then Some(e) else Find(items, c)
    {
      var all := items + [e];
      assert forall j :: 0 <= j < |items| ==> all[j] == items[j];
      if content(e.key) == c {
        FindIs(all, |items|);
      } else if Find(items, c).Some? {
        var j :| Holds(items, c, j);
        FindIs(items, j);
        FindIs(all, j);
      } else {
        assert forall j :: Holds(all, c, j) ==> Holds(items, c, j);
      }
    }

    lemma FindReplaced<V>(items: seq<Entry<K, V>>, j: nat, v: V, c: C)
      requires j < |items| && Distinct(items)
      ensures var e := WithValue(items[j], v);
              && Distinct(items[j := e])
              && Find(items[j := e], c) == if content(e.key) == c then Some(e) else Find(items, c)
    {
      var e := WithValue(items[j], v);
      var replaced := items[j := e];
      if content(e.key) == c {
        FindIs(replaced, j);
      } else if Find(items, c).Some? {
        var i :| Holds(items, c, i);
        FindIs(items, i);
        FindIs(replaced, i);
      } else {
        assert forall i :: Holds(replaced, c, i) ==> Holds(items, c, i);
      }
    }

    lemma FindRemoved<V>(items: seq<Entry<K, V>>, j: nat, c: C)
      requires j < |items| && Distinct(items)
      ensures var rest := L.WithoutIndex(items, j);
              && Distinct(rest)
              && Find(rest, c) == if content(items[j].key) == c then None else Find(items, c)
    {
      var rest := L.WithoutIndex(items, j);
      assert forall i :: 0 <= i < |rest| ==> rest[i] == items[if i < j then i else i + 1];
      if content(items[j].key) == c {
        FindNone(rest, c);
      } else if Find(items, c).Some? {
        var i :| Holds(items, c, i);
        FindIs(items, i);
        FindIs(rest, if i < j then i else i - 1);
      } else {
        forall i ensures !Holds(rest, c, i) {
          assert !Holds(items, c, if i < j then i else i + 1);
        }
      }
    }

    // ---------- the table ----------

    function WithEntry<V>(t: Table<K, V>, e: Entry<K, V>): Table<K, V>
      requires |t| >= 1
    {
      t[Slot(e.hash, |t|) := t[Slot(e.hash, |t|)] + [e]]
    }

    lemma Insert<V>(t: Table<K, V>, e: Entry<K, V>)
      requires Good(t) && e.hash == hash(content(e.key)) && Lookup(t, content(e.key)).None?
      ensures var t' := WithEntry(t, e);
              && Good(t')
              && forall c :: Lookup(t', c) == if content(e.key) == c then Some(e) else Lookup(t, c)
    {
      var i := Slot(e.hash, |t|);
      var t' := WithEntry(t, e);
      forall x | 0 <= x < |t[i]| ensures content(t[i][x].key) != content(e.key) {
        assert !Holds(t[i], content(e.key), x);
      }
      forall c ensures Lookup(t', c) == if content(e.key) == c then Some(e) else Lookup(t, c) {
        if Slot(hash(c), |t|) == i {
          FindAppend(t[i], e, c);
        }
      }
    }

    lemma Replace<V>(t: Table<K, V>, i: nat, j: nat, v: V)
      requires Good(t) && i < |t| && j < |t[i]|
      ensures var e := WithValue(t[i][j], v);
              var t' := t[i := t[i][j := e]];
              && Good(t')
              && forall c :: Lookup(t', c) == if content(e.key) == c then Some(e) else Lookup(t, c)
    {
      var e := WithValue(t[i][j], v);
      var t' := t[i := t[i][j := e]];
      FindReplaced(t[i], j, v, content(e.key));
      forall c ensures Lookup(t', c) == if content(e.key) == c then Some(e) else Lookup(t, c) {
        if Slot(hash(c), |t|) == i {
          FindReplaced(t[i], j, v, c);
        }
      }
    }

    lemma Remove<V>(t: Table<K, V>, i: nat, j: nat)
      requires Good(t) && i < |t| && j < |t[i]|
      ensures var t' := t[i := L.WithoutIndex(t[i], j)];
              && Good(t')
              && forall c :: Lookup(t', c) == if content(t[i][j].key) == c then None else Lookup(t, c)
    {
      var t' := t[i := L.WithoutIndex(t[i], j)];
      FindRemoved(t[i], j, content(t[i][j].key));
      forall c ensures Lookup(t', c) == if content(t[i][j].key) == c then None else Lookup(t, c) {
        if Slot(hash(c), |t|) == i {
          FindRemoved(t[i], j, c);
        }
      }
    }

    lemma InsertRepresents<V>(t: Table<K, V>, m: map<C, Entry<K, V>>, e: Entry<K, V>)
      requires Represents(t, m) && e.hash == hash(content(e.key)) && content(e.key) !in m
      ensures Represents(WithEntry(t, e), m[content(e.key) := e])
    {
      assert Lookup(t, content(e.key)).None?;
      Insert(t, e);
    }

    lemma ReplaceRepresents<V>(t: Table<K, V>, m: map<C, Entry<K, V>>, i: nat, j: nat, v: V)
      requires Represents(t, m) && i < |t| && j < |t[i]|
      ensures Represents(t[i := t[i][j := WithValue(t[i][j], v)]], m[content(t[i][j].key) := WithValue(t[i][j], v)])
    {
      Replace(t, i, j, v);
    }

    lemma RemoveRepresents<V>(t: Table<K, V>, m: map<C, Entry<K, V>>, i: nat, j: nat)
      requires Represents(t, m) && i < |t| && j < |t[i]|
      ensures Represents(t[i := L.WithoutIndex(t[i], j)], m - {content(t[i][j].key)})
    {
      Remove(t, i, j);
    }

    lemma NothingRepresents<V>(t: Table<K, V>)
      requires |t| >= 1 && forall i :: 0 <= i < |t| ==> t[i] == []
      ensures Represents(t, map[])
    {
      forall c ensures Lookup(t, c).None? {
        FindNone(t[Slot(hash(c), |t|)], c);
      }
    }

    // ---------- rehashing ----------

    lemma StartMoving<V>(t: Table<K, V>, m: map<C, Entry<K, V>>, t': Table<K, V>)
      requires Represents(t, m) && |t'| >= 1 && forall i :: 0 <= i < |t'| ==> t'[i] == []
      ensures Moved(t, 0, 0, t')
    {
      forall c ensures Lookup(t', c) == LookupMoved(t, c, 0, 0) {
        FindNone(t'[Slot(hash(c), |t'|)], c);
        FindNone(t[Slot(hash(c), |t|)][..0], c);
      }
    }

    /** Moving entry j of bucket i into the new table keeps the two in step. */
    lemma MoveOne<V>(t: Table<K, V>, i: nat, j: nat, t': Table<K, V>)
      requires Moved(t, i, j, t') && i < |t| && j < |t[i]|
      ensures Moved(t, i, j + 1, WithEntry(t', t[i][j]))
    {
      var e := t[i][j];
      assert t[i][..j + 1] == t[i][..j] + [e];
      FindNone(t[i][..j], content(e.key));
      assert Lookup(t', content(e.key)) == LookupMoved(t, content(e.key), i, j);
      Insert(t', e);
      forall c ensures Lookup(WithEntry(t', e), c) == LookupMoved(t, c, i, j + 1) {
        assert Lookup(t', c) == LookupMoved(t, c, i, j);
        if Slot(hash(c), |t|) == i {
          FindAppend(t[i][..j], e, c);
        }
      }
    }

    lemma NextBucket<V>(t: Table<K, V>, i: nat, t': Table<K, V>)
      requires i < |t| && Moved(t, i, |t[i]|, t')
      ensures Moved(t, i + 1, 0, t')
    {
      forall c ensures LookupMoved(t, c, i, |t[i]|) == LookupMoved(t, c, i + 1, 0) {
        assert t[i][..|t[i]|] == t[i];
        if i + 1 < |t| && Slot(hash(c), |t|) == i + 1 {
          FindNone(t[i + 1][..0], c);
        }
      }
    }

    lemma AllMoved<V>(t: Table<K, V>, t': Table<K, V>, m: map<C, Entry<K, V>>)
      requires Moved(t, |t|, 0, t') && Represents(t, m)
      ensures Represents(t', m)
    {
      forall c ensures Lookup(t', c) == if c in m then Some(m[c]) else None {
        assert Lookup(t', c) == LookupMoved(t, c, |t|, 0) == Lookup(t, c);
      }
    }

    // ---------- the order of iteration ----------

    ghost function Flatten<V>(t: Table<K, V>): seq<Entry<K, V>>
    {
      if t == [] then [] else Flatten(t[..|t| - 1]) + t[|t| - 1]
    }

    ghost function Offset<V>(t: Table<K, V>, i: nat): nat
      requires i <= |t|
    {
      |Flatten(t[..i])|
    }

    lemma {:induction false} FlattenAt<V>(t: Table<K, V>, i: nat)
      requires i < |t|
      ensures Offset(t, i + 1) == Offset(t, i) + |t[i]| <= |Flatten(t)|
      ensures Flatten(t)[Offset(t, i)..Offset(t, i + 1)] == t[i]
      decreases |t|
    {
      var n := |t| - 1;
      assert t[..i + 1][..i] == t[..i];
      if i < n {
        assert t[..n][..i] == t[..i] && t[..n][..i + 1] == t[..i + 1];
        FlattenAt(t[..n], i);
      } else {
        assert t[..i + 1] == t;
      }
    }

    lemma FlattenIndex<V>(t: Table<K, V>, i: nat, j: nat)
      requires i < |t| && j < |t[i]|
      ensures Offset(t, i) + j < |Flatten(t)| && Flatten(t)[Offset(t, i) + j] == t[i][j]
    {
      FlattenAt(t, i);
      assert Flatten(t)[Offset(t, i)..Offset(t, i + 1)][j] == t[i][j];
    }

    lemma OffsetEnd<V>(t: Table<K, V>)
      ensures Offset(t, 0) == 0 && Offset(t, |t|) == |Flatten(t)|
    {
      assert t[..|t|] == t;
    }

    lemma {:induction false} Locate<V>(t: Table<K, V>, p: nat) returns (i: nat, j: nat)
      requires p < |Flatten(t)|
      ensures i < |t| && j < |t[i]| && p == Offset(t, i) + j && Flatten(t)[p] == t[i][j]
      decreases |t|
    {
      var n := |t| - 1;
      if p < |Flatten(t[..n])| {
        i, j := Locate(t[..n], p);
        assert t[..n][..i] == t[..i];
      } else {
        i, j := n, p - |Flatten(t[..n])|;
      }
    }

    /** No content occurs twice, and the order covers exactly what lookups find. */
    lemma EntriesAreLookups<V>(t: Table<K, V>)
      requires Good(t)
      ensures Distinct(Flatten(t))
      ensures forall c :: Find(Flatten(t), c) == Lookup(t, c)
    {
      forall p, q | 0 <= p < q < |Flatten(t)|
        ensures content(Flatten(t)[p].key) != content(Flatten(t)[q].key)
      {
        var i, j := Locate(t, p);
        var i', j' := Locate(t, q);
      }
      forall c ensures Find(Flatten(t), c) == Lookup(t, c) {
        if Find(Flatten(t), c).Some? {
          var p :| Holds(Flatten(t), c, p);
          var i, j := Locate(t, p);
          FindIs(Flatten(t), p);
          FindIs(t[i], j);
        } else if Lookup(t, c).Some? {
          var b := Slot(hash(c), |t|);
          var j :| Holds(t[b], c, j);
          FlattenIndex(t, b, j);
          assert Holds(Flatten(t), c, Offset(t, b) + j);
        }
      }
    }

    lemma OrderIsDistinct<V>(t: Table<K, V>, m: map<C, Entry<K, V>>)
      requires Represents(t, m)
      ensures Distinct(Flatten(t))
    {
      EntriesAreLookups(t);
    }

    lemma {:induction false} FlattenRemoved<V>(t: Table<K, V>, i: nat, j: nat)
      requires i < |t| && j < |t[i]|
      ensures Offset(t, i) + j < |Flatten(t)|
      ensures Flatten(t[i := L.WithoutIndex(t[i], j)]) == L.WithoutIndex(Flatten(t), Offset(t, i) + j)
      decreases |t|
    {
      var n := |t| - 1;
      var t' := t[i := L.WithoutIndex(t[i], j)];
      FlattenIndex(t, i, j);
      if i < n {
        assert t'[..n] == t[..n][i := L.WithoutIndex(t[i], j)] && t[..n][..i] == t[..i];
        FlattenRemoved(t[..n], i, j);
      } else {
        assert t'[..n] == t[..n];
      }
    }
  }
}
