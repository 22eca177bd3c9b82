/**
 The menus of interactive markers: a tree of entries kept as handles in a table, flattened into
 a list of entries with parent ids. The list determines the visible tree.
 */
module Menu {
  import opened Wrappers

  datatype CheckState = NO_CHECKBOX | CHECKED | UNCHECKED

  datatype Context = Context(title: string, command: string, commandType: nat, visible: bool, checkState: CheckState,
                             subEntries: seq<nat>)

  /** What one entry shows; without its place in the tree. */
  datatype Item = Item(id: nat, title: string, command: string, commandType: nat)

  datatype MenuEntry = MenuEntry(item: Item, parentId: nat)

  datatype Tree = Node(item: Item, kids: seq<Tree>)

  function ItemOf(c: Context, handle: nat): Item
  {
    var title := match c.checkState
      case NO_CHECKBOX => c.title
      case CHECKED => "[x] " + c.title
      case UNCHECKED => "[ ] " + c.title;
    Item(handle, title, c.command, c.commandType)
  }

  // ---------- trees and lists ----------

  function Preorder(forest: seq<Tree>, parent: nat): seq<MenuEntry>
  {
    if forest == [] then []
    else
      var t := forest[0];
      [MenuEntry(t.item, parent)] + Preorder(t.kids, t.item.id) + Preorder(forest[1..], parent)
  }

  /** The children of a parent id, in list order, each with its own children. */
  function Rebuild(entries: seq<MenuEntry>, from: nat, parent: nat, bound: nat): seq<Tree>
    decreases if parent < bound then bound - parent else 0, |entries| - from
  {
    if from >= |entries| then []
    else
      var e := entries[from];
      var rest := Rebuild(entries, from + 1, parent, bound);
      if e.parentId == parent && parent < e.item.id < bound
      then [Node(e.item, Rebuild(entries, 0, e.item.id, bound))] + rest
      else rest
  }

  ghost function Ids(forest: seq<Tree>): set<nat>
  {
    if forest == [] then {} else {forest[0].item.id} + Ids(forest[0].kids) + Ids(forest[1..])
  }

  /** No id occurs twice. */
  ghost predicate DistinctIds(forest: seq<Tree>)
  {
    forest == [] ||
    var t, rest := forest[0], forest[1..];
    && t.item.id !in Ids(t.kids) && t.item.id !in Ids(rest) && Ids(t.kids) !! Ids(rest)
    && DistinctIds(t.kids) && DistinctIds(rest)
  }

  /** Every id exceeds its parent's and stays below the bound. */
  ghost predicate Ascending(forest: seq<Tree>, parent: nat, bound: nat)
  {
    forest == [] ||
    var t := forest[0];
    parent < t.item.id < bound && Ascending(t.kids, t.item.id, bound) && Ascending(forest[1..], parent, bound)
  }

  ghost predicate NoParentIn(entries: seq<MenuEntry>, ids: set<nat>)
  {
    forall i :: 0 <= i < |entries| ==> entries[i].parentId !in ids
  }

  lemma {:induction false} AscendingIds(forest: seq<Tree>, parent: nat, bound: nat)
    requires Ascending(forest, parent, bound)
    ensures forall id :: id in Ids(forest) ==> parent < id < bound
    decreases forest
  {
    if forest != [] {
      AscendingIds(forest[0].kids, forest[0].item.id, bound);
      AscendingIds(forest[1..], parent, bound);
    }
  }

  lemma {:induction false} PreorderParents(forest: seq<Tree>, parent: nat)
    ensures forall i :: 0 <= i < |Preorder(forest, parent)| ==>
              Preorder(forest, parent)[i].parentId in {parent} + Ids(forest)
    decreases forest
  {
    if forest != [] {
      PreorderParents(forest[0].kids, forest[0].item.id);
      PreorderParents(forest[1..], parent);
    }
  }

  lemma {:induction false} SkipOthers(entries: seq<MenuEntry>, a: nat, b: nat, parent: nat, bound: nat)
    requires a <= b <= |entries|
    requires forall i :: a <= i < b ==> entries[i].parentId != parent
    ensures Rebuild(entries, a, parent, bound) == Rebuild(entries, b, parent, bound)
    decreases b - a
  {
    if a < b {
      SkipOthers(entries, a + 1, b, parent, bound);
    }
  }

  lemma NoParentInSum(a: seq<MenuEntry>, b: seq<MenuEntry>, ids: set<nat>)
    requires NoParentIn(a, ids) && NoParentIn(b, ids)
    ensures NoParentIn(a + b, ids)
  {
  }

  lemma NoParentInPreorder(forest: seq<Tree>, parent: nat, ids: set<nat>)
    requires ({parent} + Ids(forest)) !! ids
    ensures NoParentIn(Preorder(forest, parent), ids)
  {
    PreorderParents(forest, parent);
  }

  /** Scanning past a flattened forest yields that forest. */
  lemma {:induction false} ScanForest(entries: seq<MenuEntry>, before: seq<MenuEntry>, forest: seq<Tree>,
                                      after: seq<MenuEntry>,
                                      parent: nat, bound: nat)
    requires entries == before + Preorder(forest, parent) + after
    requires DistinctIds(forest) && Ascending(forest, parent, bound)
    requires NoParentIn(before, Ids(forest)) && NoParentIn(after, Ids(forest))
    ensures Rebuild(entries, |before|, parent, bound) ==
            forest + Rebuild(entries, |before| + |Preorder(forest, parent)|, parent, bound)
    decreases forest, 0
  {
    if forest != [] {
      var t, rest := forest[0], forest[1..];
      var here, kids, others := [MenuEntry(t.item, parent)], Preorder(t.kids, t.item.id), Preorder(rest, parent);
      Pieces(entries, before, forest, after, parent);
      Separate(before, forest, after, parent, bound);
      KidsOf(entries, before + here, t.kids, others + after, t.item.id, bound);
      SkipKids(entries, before + here, kids, others + after, parent, bound);
      ScanForest(entries, before + here + kids, rest, after, parent, bound);
      ScanOne(entries, before, forest, parent, bound);
    }
  }

  lemma ScanOne(entries: seq<MenuEntry>, before: seq<MenuEntry>, forest: seq<Tree>, parent: nat, bound: nat)
    requires forest != [] && |before| < |entries| && entries[|before|] == MenuEntry(forest[0].item, parent)
    requires parent < forest[0].item.id < bound && Rebuild(entries, 0, forest[0].item.id, bound) == forest[0].kids
    ensures Rebuild(entries, |before|, parent, bound) == [forest[0]] + Rebuild(entries, |before| + 1, parent, bound)
    ensures [forest[0]] + forest[1..] == forest
  {
  }

  lemma Pieces(entries: seq<MenuEntry>, before: seq<MenuEntry>, forest: seq<Tree>, after: seq<MenuEntry>, parent: nat)
    requires forest != [] && entries == before + Preorder(forest, parent) + after
    ensures var t, rest := forest[0], forest[1..];
            var here, kids, others := [MenuEntry(t.item, parent)], Preorder(t.kids, t.item.id), Preorder(rest, parent);
            && entries == (before + here) + kids + (others + after)
            && entries == (before + here + kids) + others + after
            && |Preorder(forest, parent)| == 1 + |kids| + |others|
            && entries[|before|] == here[0]
  {
    var t, rest := forest[0], forest[1..];
    var here, kids, others := [MenuEntry(t.item, parent)], Preorder(t.kids, t.item.id), Preorder(rest, parent);
    assert Preorder(forest, parent) == here + kids + others;
    hide *;
    Regroup(before, here, kids, others, after);
  }

  lemma Regroup(before: seq<MenuEntry>, here: seq<MenuEntry>, kids: seq<MenuEntry>, others: seq<MenuEntry>,
                after: seq<MenuEntry>)
    requires |here| == 1
    ensures before + (here + kids + others) + after == (before + here) + kids + (others + after)
    ensures before + (here + kids + others) + after == (before + here + kids) + others + after
    ensures |here + kids + others| == 1 + |kids| + |others|
    ensures (before + (here + kids + others) + after)[|before|] == here[0]
  {
  }

  lemma Separate(before: seq<MenuEntry>, forest: seq<Tree>, after: seq<MenuEntry>, parent: nat, bound: nat)
    requires forest != [] && DistinctIds(forest) && Ascending(forest, parent, bound)
    requires NoParentIn(before, Ids(forest)) && NoParentIn(after, Ids(forest))
    ensures var t, rest := forest[0], forest[1..];
            var here, kids, others := [MenuEntry(t.item, parent)], Preorder(t.kids, t.item.id), Preorder(rest, parent);
            && NoParentIn(before + here, {t.item.id} + Ids(t.kids))
            && NoParentIn(others + after, {t.item.id} + Ids(t.kids))
            && NoParentIn(before + here + kids, Ids(rest)) && NoParentIn(after, Ids(rest))
            && NoParentIn(kids, {parent})
  {
    var t, rest := forest[0], forest[1..];
    var here, kids, others := [MenuEntry(t.item, parent)], Preorder(t.kids, t.item.id), Preorder(rest, parent);
    AscendingIds(forest, parent, bound);
    NoParentInSum(before, here, {t.item.id} + Ids(t.kids));
    NoParentInPreorder(rest, parent, {t.item.id} + Ids(t.kids));
    NoParentInSum(others, after, {t.item.id} + Ids(t.kids));
    NoParentInPreorder(t.kids, t.item.id, Ids(rest));
    NoParentInSum(before, here, Ids(rest));
    NoParentInSum(before + here, kids, Ids(rest));
    NoParentInPreorder(t.kids, t.item.id, {parent});
  }

  lemma SkipKids(entries: seq<MenuEntry>, before: seq<MenuEntry>, kids: seq<MenuEntry>, after: seq<MenuEntry>,
                 parent: nat, bound: nat)
    requires entries == before + kids + after && NoParentIn(kids, {parent})
    ensures Rebuild(entries, |before|, parent, bound) == Rebuild(entries, |before + kids|, parent, bound)
  {
    forall i | |before| <= i < |before + kids| ensures entries[i].parentId != parent {
      assert entries[i] == kids[i - |before|];
    }
    SkipOthers(entries, |before|, |before + kids|, parent, bound);
  }

  /** All children of a parent are found where they are, and nowhere else. */
  lemma {:induction false} KidsOf(entries: seq<MenuEntry>, before: seq<MenuEntry>, forest: seq<Tree>,
                                  after: seq<MenuEntry>,
                                  parent: nat, bound: nat)
    requires entries == before + Preorder(forest, parent) + after
    requires DistinctIds(forest) && Ascending(forest, parent, bound)
    requires NoParentIn(before, {parent} + Ids(forest)) && NoParentIn(after, {parent} + Ids(forest))
    ensures Rebuild(entries, 0, parent, bound) == forest
    decreases forest, 1
  {
    var n, m := |before|, |before| + |Preorder(forest, parent)|;
    SkipOthers(entries, 0, n, parent, bound);
    ScanForest(entries, before, forest, after, parent, bound);
    SkipOthers(entries, m, |entries|, parent, bound);
  }

  /** Rebuilding from ids and parent ids undoes flattening, sibling order included. */
  lemma RebuildUndoesPreorder(forest: seq<Tree>, bound: nat)
    requires DistinctIds(forest) && Ascending(forest, 0, bound)
    ensures Rebuild(Preorder(forest, 0), 0, 0, bound) == forest
  {
    var entries := Preorder(forest, 0);
    assert entries == [] + entries + [];
    KidsOf(entries, [], forest, [], 0, bound);
  }

  // ---------- the table of entries ----------

  /** The entries by handle, the handles at the top, the next handle, and the list each handle is in. */
  datatype Table = Table(contexts: map<nat, Context>, topLevel: seq<nat>, current: nat, parents: map<nat, nat>)
  {
    /** The handles inserted under p, where 0 is the top. */
    function List(p: nat): seq<nat>
    {
      if p == 0 then topLevel else if p in contexts then contexts[p].subEntries else []
    }

    /** Entries of p in the order of insertion, each once. */
    ghost predicate OwnList(hs: seq<nat>, p: nat)
    {
      && (forall i, j :: 0 <= i < j < |hs| ==> hs[i] < hs[j])
      && (forall i :: 0 <= i < |hs| ==> hs[i] in contexts && hs[i] in parents && parents[hs[i]] == p && p < hs[i])
    }

    ghost predicate Proper()
    {
      && current >= 1
      && (forall h :: h in contexts <==> 0 < h < current)
      && parents.Keys == contexts.Keys
      && (forall h :: h in parents ==> parents[h] < h)
      && (forall h {:trigger Placed(h)} :: h in parents ==> Placed(h))
      && (forall p {:trigger OwnsList(p)} :: OwnsList(p))
    }

    ghost predicate Placed(h: nat)
      requires h in parents
    {
      h in List(parents[h])
    }

    ghost predicate OwnsList(p: nat)
    {
      OwnList(List(p), p)
    }

    /** The entries shown for a list of handles; a hidden entry hides all below it. */
    ghost function Forest(hs: seq<nat>, p: nat): seq<Tree>
      requires Proper() && OwnList(hs, p)
      decreases if p < current then current - p else 0, |hs|
    {
      if hs == [] then []
      else
        var h := hs[0];
        assert OwnList(hs[1..], p) && hs[0] in contexts;
        var rest := Forest(hs[1..], p);
        if !contexts[h].visible then rest
        else
          assert OwnsList(h);
          [Node(ItemOf(contexts[h], h), Forest(contexts[h].subEntries, h))] + rest
    }

    ghost function Shown(): seq<Tree>
      requires Proper()
    {
      assert OwnsList(0);
      Forest(topLevel, 0)
    }

    /** The ancestor of x (or x itself) that is an entry of p. */
    ghost function Under(x: nat, p: nat): (top: Option<nat>)
      requires Proper()
      ensures top.Some? ==> p < x && top.value in parents && parents[top.value] == p && x in parents
    {
      if x !in parents then None
      else if parents[x] == p then Some(x)
      else Under(parents[x], p)
    }

    /** x is visible, and so is everything between x and p. */
    ghost predicate VisibleBelow(x: nat, p: nat)
      requires Proper()
    {
      && x in parents && contexts[x].visible
      && (parents[x] == p || VisibleBelow(parents[x], p))
    }
  }

  /** An entry under h is under the entry h of p. */
  lemma {:induction false} UnderLifts(t: Table, x: nat, h: nat)
    requires t.Proper() && h in t.parents && t.Under(x, h).Some?
    ensures t.Under(x, t.parents[h]) == Some(h)
  {
    if t.parents[x] != h {
      UnderLifts(t, t.parents[x], h);
    }
  }

  lemma {:induction false} VisibleSplits(t: Table, x: nat, p: nat, h: nat)
    requires t.Proper() && t.Under(x, p) == Some(h)
    ensures t.VisibleBelow(x, p) <==> t.contexts[h].visible && (x == h || t.VisibleBelow(x, h))
    ensures x == h || t.Under(x, h).Some?
  {
    if x != h {
      VisibleSplits(t, t.parents[x], p, h);
    }
  }

  lemma ListOfUnder(t: Table, x: nat, h: nat)
    requires t.Proper() && h in t.contexts && t.Under(x, h).Some?
    ensures t.Under(x, h).value in t.contexts[h].subEntries
  {
    var s := t.Under(x, h).value;
    assert t.Placed(s);
  }

  /** Exactly the entries with no hidden ancestor are shown. */
  lemma {:induction false} IdsOfForest(t: Table, hs: seq<nat>, p: nat, x: nat)
    requires t.Proper() && t.OwnList(hs, p)
    ensures x in Ids(t.Forest(hs, p)) <==> t.Under(x, p).Some? && t.Under(x, p).value in hs && t.VisibleBelow(x, p)
    decreases if p < t.current then t.current - p else 0, |hs|
  {
    if hs != [] {
      var h, rest := hs[0], hs[1..];
      assert t.OwnList(rest, p);
      IdsOfForest(t, rest, p, x);
      assert t.OwnsList(h);
      IdsOfForest(t, t.contexts[h].subEntries, h, x);
      IdsStep(t, hs, p, x);
    }
  }

  lemma IdsStep(t: Table, hs: seq<nat>, p: nat, x: nat)
    requires t.Proper() && t.OwnList(hs, p) && hs != [] && t.OwnList(hs[1..], p)
               && t.OwnList(t.contexts[hs[0]].subEntries, hs[0])
    requires x in Ids(t.Forest(hs[1..], p)) <==>
               t.Under(x, p).Some? && t.Under(x, p).value in hs[1..] && t.VisibleBelow(x, p)
    requires x in Ids(t.Forest(t.contexts[hs[0]].subEntries, hs[0])) <==>
             t.Under(x, hs[0]).Some? && t.Under(x, hs[0]).value in t.contexts[hs[0]].subEntries
                 && t.VisibleBelow(x, hs[0])
    ensures x in Ids(t.Forest(hs, p)) <==> t.Under(x, p).Some? && t.Under(x, p).value in hs && t.VisibleBelow(x, p)
  {
    var h := hs[0];
    if t.Under(x, h).Some? {
      UnderLifts(t, x, h);
      ListOfUnder(t, x, h);
    }
    if t.Under(x, p) == Some(h) {
      VisibleSplits(t, x, p, h);
    }
  }

  lemma {:induction false} ForestIsDistinct(t: Table, hs: seq<nat>, p: nat)
    requires t.Proper() && t.OwnList(hs, p)
    ensures DistinctIds(t.Forest(hs, p)) && Ascending(t.Forest(hs, p), p, t.current)
    decreases if p < t.current then t.current - p else 0, |hs|
  {
    if hs != [] {
      var h, rest := hs[0], hs[1..];
      assert t.OwnList(rest, p);
      ForestIsDistinct(t, rest, p);
      assert t.OwnsList(h);
      ForestIsDistinct(t, t.contexts[h].subEntries, h);
      Apart(t, hs, p);
    }
  }

  lemma Apart(t: Table, hs: seq<nat>, p: nat)
    requires t.Proper() && t.OwnList(hs, p) && hs != [] && t.OwnList(hs[1..], p)
               && t.OwnList(t.contexts[hs[0]].subEntries, hs[0])
    ensures var kids, rest := Ids(t.Forest(t.contexts[hs[0]].subEntries, hs[0])), Ids(t.Forest(hs[1..], p));
            hs[0] !in kids && hs[0] !in rest && kids !! rest
  {
    var h := hs[0];
    forall x | x in Ids(t.Forest(t.contexts[h].subEntries, h)) ensures t.Under(x, p) == Some(h) && x > h {
      IdsOfForest(t, t.contexts[h].subEntries, h, x);
      UnderLifts(t, x, h);
    }
    forall x | x in Ids(t.Forest(hs[1..], p)) ensures t.Under(x, p).Some? && t.Under(x, p).value != h {
      IdsOfForest(t, hs[1..], p, x);
    }
  }

  /** An entry is in the menu exactly when neither it nor anything above it is hidden. */
  lemma ShownIffVisible(t: Table, x: nat)
    requires t.Proper()
    ensures x in Ids(t.Shown()) <==> t.VisibleBelow(x, 0)
  {
    assert t.OwnsList(0);
    IdsOfForest(t, t.topLevel, 0, x);
    if t.VisibleBelow(x, 0) {
      VisibleIsUnder(t, x);
      var s := t.Under(x, 0).value;
      assert t.Placed(s);
    }
  }

  lemma {:induction false} VisibleIsUnder(t: Table, x: nat)
    requires t.Proper() && t.VisibleBelow(x, 0)
    ensures t.Under(x, 0).Some?
  {
    if t.parents[x] != 0 {
      VisibleIsUnder(t, t.parents[x]);
    }
  }

  // ---------- insertion ----------

  /** The forest with a leaf added last below the node with the given id. */
  function AddLeaf(forest: seq<Tree>, parent: nat, leaf: Tree): seq<Tree>
  {
    if forest == [] then []
    else
      var t := forest[0];
      var kids := AddLeaf(t.kids, parent, leaf) + if t.item.id == parent then [leaf] else [];
      [Node(t.item, kids)] + AddLeaf(forest[1..], parent, leaf)
  }

  ghost predicate Extends(was: Table, parent: nat, c: Context, t: Table)
  {
    && was.Proper() && (parent == 0 || parent in was.contexts)
    && c.subEntries == [] && c.visible
    && t.current == was.current + 1
    && t.parents == was.parents[was.current := parent]
    && t.topLevel == (if parent == 0 then was.topLevel + [was.current] else was.topLevel)
    && t.contexts.Keys == was.contexts.Keys + {was.current}
    && t.contexts[was.current] == c
    && (forall h :: h in was.contexts ==>
         t.contexts[h] ==
           if h == parent then was.contexts[h].(subEntries := was.contexts[h].subEntries + [was.current])
           else was.contexts[h])
  }

  lemma ExtendsLists(was: Table, parent: nat, c: Context, t: Table, p: nat)
    requires Extends(was, parent, c, t)
    ensures t.List(p) == was.List(p) + (if p == parent then [was.current] else [])
    ensures was.OwnList(was.List(p), p)
  {
    assert was.OwnsList(p);
    if p == parent && p != 0 {
      assert t.contexts[p].subEntries == was.contexts[p].subEntries + [was.current];
    }
  }

  lemma OwnListExtends(was: Table, parent: nat, c: Context, t: Table, hs: seq<nat>, p: nat)
    requires Extends(was, parent, c, t) && was.OwnList(hs, p)
    ensures t.OwnList(hs, p)
    ensures p == parent ==> t.OwnList(hs + [was.current], p) && t.OwnList([was.current], p)
  {
  }

  lemma ExtendsKeepsProper(was: Table, parent: nat, c: Context, t: Table)
    requires Extends(was, parent, c, t)
    ensures t.Proper()
  {
    forall p ensures t.OwnsList(p) {
      ExtendsLists(was, parent, c, t, p);
      OwnListExtends(was, parent, c, t, was.List(p), p);
      assert was.List(p) + [] == was.List(p);
    }
    forall h | h in t.parents ensures t.Placed(h) {
      ExtendsLists(was, parent, c, t, t.parents[h]);
      if h in was.parents {
        assert was.Placed(h);
      }
    }
  }

  lemma {:induction false} ExtendsForest(was: Table, parent: nat, c: Context, t: Table, hs: seq<nat>, p: nat)
    requires Extends(was, parent, c, t) && t.Proper()
    requires was.OwnList(hs, p) && t.OwnList(hs, p)
    ensures t.Forest(hs, p) == AddLeaf(was.Forest(hs, p), parent, Node(ItemOf(c, was.current), []))
    decreases if p < was.current then was.current - p else 0, |hs|
  {
    if hs != [] {
      var h, rest := hs[0], hs[1..];
      assert was.OwnList(rest, p) && t.OwnList(rest, p);
      ExtendsForest(was, parent, c, t, rest, p);
      var subs := was.contexts[h].subEntries;
      assert was.OwnsList(h);
      OwnListExtends(was, parent, c, t, subs, h);
      ExtendsForest(was, parent, c, t, subs, h);
      ExtendsNode(was, parent, c, t, h);
      hide Extends, Table.OwnList;
      assert ItemOf(t.contexts[h], h) == ItemOf(was.contexts[h], h);
    }
  }

  lemma ExtendsNode(was: Table, parent: nat, c: Context, t: Table, h: nat)
    requires Extends(was, parent, c, t) && t.Proper() && h in was.contexts
    requires t.OwnList(was.contexts[h].subEntries, h) && t.OwnList(t.contexts[h].subEntries, h)
    ensures t.contexts[h].visible == was.contexts[h].visible && ItemOf(t.contexts[h], h) == ItemOf(was.contexts[h], h)
    ensures t.Forest(t.contexts[h].subEntries, h) ==
            t.Forest(was.contexts[h].subEntries, h) + if h == parent then [Node(ItemOf(c, was.current), [])] else []
  {
    if h == parent {
      assert t.contexts[h].subEntries == was.contexts[h].subEntries + [was.current];
      ForestOfNew(was, parent, c, t, was.contexts[h].subEntries);
    }
  }

  lemma ForestOfNew(was: Table, parent: nat, c: Context, t: Table, subs: seq<nat>)
    requires Extends(was, parent, c, t) && t.Proper()
    requires t.OwnList(subs, parent) && t.OwnList(subs + [was.current], parent)
    ensures t.Forest(subs + [was.current], parent) == t.Forest(subs, parent) + [Node(ItemOf(c, was.current), [])]
  {
    assert t.OwnList([was.current], parent) by {
      assert (subs + [was.current])[|subs|] == was.current;
    }
    ForestOfSnoc(t, subs, was.current, parent);
    assert t.Forest([was.current], parent) == [Node(ItemOf(c, was.current), [])];
  }

  lemma {:induction false} ForestOfSnoc(t: Table, hs: seq<nat>, last: nat, p: nat)
    requires t.Proper() && t.OwnList(hs + [last], p) && t.OwnList(hs, p) && t.OwnList([last], p)
    ensures t.Forest(hs + [last], p) == t.Forest(hs, p) + t.Forest([last], p)
  {
    if hs == [] {
      assert hs + [last] == [last];
    } else {
      assert (hs + [last])[1..] == hs[1..] + [last];
      assert t.OwnList(hs[1..] + [last], p) && t.OwnList(hs[1..], p);
      ForestOfSnoc(t, hs[1..], last, p);
    }
  }

  /** A new entry appears last below its parent, if that is shown; all else stays. */
  lemma InsertAddsLeaf(was: Table, parent: nat, c: Context, t: Table)
    requires Extends(was, parent, c, t)
    ensures t.Proper()
    ensures var leaf := Node(ItemOf(c, was.current), []);
            t.Shown() == AddLeaf(was.Shown(), parent, leaf) + if parent == 0 then [leaf] else []
  {
    ExtendsKeepsProper(was, parent, c, t);
    ExtendsLists(was, parent, c, t, 0);
    OwnListExtends(was, parent, c, t, was.topLevel, 0);
    ExtendsForest(was, parent, c, t, was.topLevel, 0);
    if parent == 0 {
      ForestOfNew(was, parent, c, t, was.topLevel);
    }
  }

  // ---------- hiding ----------

  function Prune(forest: seq<Tree>, id: nat): seq<Tree>
  {
    if forest == [] then []
    else
      var rest := Prune(forest[1..], id);
      if forest[0].item.id == id then rest else [Node(forest[0].item, Prune(forest[0].kids, id))] + rest
  }

  ghost predicate Hides(was: Table, handle: nat, t: Table)
  {
    && was.Proper() && handle in was.contexts
    && t == was.(contexts := was.contexts[handle := was.contexts[handle].(visible := false)])
  }

  lemma SetVisibleKeepsProper(was: Table, handle: nat, c: Context, t: Table)
    requires was.Proper() && handle in was.contexts && t == was.(contexts := was.contexts[handle := c])
    requires c.subEntries == was.contexts[handle].subEntries
    ensures t.Proper()
    ensures forall p :: t.List(p) == was.List(p)
  {
    forall p ensures t.OwnsList(p) && t.List(p) == was.List(p) {
      assert was.OwnsList(p);
    }
    forall h | h in t.parents ensures t.Placed(h) {
      assert was.Placed(h);
    }
  }

  lemma {:induction false} HidingForest(was: Table, handle: nat, t: Table, hs: seq<nat>, p: nat)
    requires Hides(was, handle, t) && t.Proper() && was.OwnList(hs, p) && t.OwnList(hs, p)
    ensures t.Forest(hs, p) == Prune(was.Forest(hs, p), handle)
    decreases if p < was.current then was.current - p else 0, |hs|
  {
    hide Table.Proper, Table.OwnList, Preorder;
    if hs != [] {
      var h, rest := hs[0], hs[1..];
      PushStep(was, hs, p);
      PushStep(t, hs, p);
      HidingForest(was, handle, t, rest, p);
      HidingForest(was, handle, t, was.contexts[h].subEntries, h);
    }
  }

  /** Hiding an entry takes it and all below it out of the menu, and nothing else. */
  lemma HidingPrunes(was: Table, handle: nat, t: Table)
    requires Hides(was, handle, t)
    ensures t.Proper() && t.Shown() == Prune(was.Shown(), handle)
  {
    SetVisibleKeepsProper(was, handle, was.contexts[handle].(visible := false), t);
    assert was.OwnsList(0) && t.OwnsList(0);
    HidingForest(was, handle, t, was.topLevel, 0);
  }

  /** What a menu shows can be read back from its list of entries. */
  lemma ShownIsRecovered(t: Table)
    requires t.Proper()
    ensures Rebuild(Preorder(t.Shown(), 0), 0, 0, t.current) == t.Shown()
  {
    assert t.OwnsList(0);
    ForestIsDistinct(t, t.topLevel, 0);
    RebuildUndoesPreorder(t.Shown(), t.current);
  }

  /** An entry with a checkbox shows it before its title. */
  predicate ShowsContext(e: MenuEntry, c: Context, parent: nat)
  {
    && e.item.title == (if c.checkState == CHECKED then "[x] " + c.title
                        else if c.checkState == UNCHECKED then "[ ] " + c.title else c.title)
    && e.item.command == c.command && e.item.commandType == c.commandType && e.parentId == parent
  }

  ghost predicate EntryShows(t: Table, e: MenuEntry)
    requires t.Proper()
  {
    e.item.id in t.contexts && ShowsContext(e, t.contexts[e.item.id], t.parents[e.item.id])
  }

  lemma {:induction false} EntriesShow(t: Table, hs: seq<nat>, p: nat, i: nat)
    requires t.Proper() && t.OwnList(hs, p) && i < |Preorder(t.Forest(hs, p), p)|
    ensures EntryShows(t, Preorder(t.Forest(hs, p), p)[i])
    decreases if p < t.current then t.current - p else 0, |hs|
  {
    hide Preorder, Table.Proper, EntryShows;
    if hs == [] {
      PushNone(t, hs, p);
      assert false;
    } else {
      PushStep(t, hs, p);
      hide Table.Forest;
      var h := hs[0];
      var shown := if t.contexts[h].visible then 1 + |Preorder(t.Forest(t.contexts[h].subEntries, h), h)| else 0;
      if i >= shown {
        EntriesShow(t, hs[1..], p, i - shown);
      } else if i > 0 {
        EntriesShow(t, t.contexts[h].subEntries, h, i - 1);
      } else {
        FirstShows(t, hs, p);
      }
    }
  }

  lemma ShownEntries(t: Table)
    requires t.Proper()
    ensures forall i :: 0 <= i < |Preorder(t.Shown(), 0)| ==> EntryShows(t, Preorder(t.Shown(), 0)[i])
  {
    assert t.OwnsList(0);
    forall i | 0 <= i < |Preorder(t.Shown(), 0)| ensures EntryShows(t, Preorder(t.Shown(), 0)[i]) {
      EntriesShow(t, t.topLevel, 0, i);
    }
  }

  lemma FirstShows(t: Table, hs: seq<nat>, p: nat)
    requires t.Proper() && t.OwnList(hs, p) && hs != []
    ensures hs[0] in t.contexts && EntryShows(t, MenuEntry(ItemOf(t.contexts[hs[0]], hs[0]), p))
  {
  }

  // ---------- the handler ----------

  lemma PushStep(t: Table, hs: seq<nat>, p: nat)
    requires t.Proper() && t.OwnList(hs, p) && hs != []
    ensures t.OwnList(hs[1..], p) && hs[0] in t.contexts && p < hs[0] < t.current
    ensures t.OwnList(t.contexts[hs[0]].subEntries, hs[0])
    ensures var h, rest := hs[0], Preorder(t.Forest(hs[1..], p), p);
            Preorder(t.Forest(hs, p), p) ==
              if t.contexts[h].visible
              then [MenuEntry(ItemOf(t.contexts[h], h), p)] + Preorder(t.Forest(t.contexts[h].subEntries, h), h) + rest
              else rest
  {
    assert t.OwnsList(hs[0]);
    var forest := t.Forest(hs, p);
    if t.contexts[hs[0]].visible {
      assert forest[1..] == t.Forest(hs[1..], p);
    }
  }

  lemma PushNone(t: Table, hs: seq<nat>, p: nat)
    requires t.Proper() && t.OwnList(hs, p) && hs == []
    ensures Preorder(t.Forest(hs, p), p) == []
  {
  }

  class MenuHandler {
    var contexts: map<nat, Context>
    var topLevel: seq<nat>
    var current: nat
    /** The list each handle is in: that of its parent, or 0 for the top. */
    ghost var parents: map<nat, nat>

    ghost function State(): Table
      reads this
    {
      Table(contexts, topLevel, current, parents)
    }

    ghost predicate Valid()
      reads this
    {
      State().Proper()
    }

    constructor ()
      ensures Valid() && State() == Table(map[], [], 1, map[]) && State().Shown() == []
    {
      contexts, topLevel, current, parents := map[], [], 1, map[];
      new;
      assert forall p :: State().List(p) == [] && State().OwnsList(p);
    }

    method DoInsert(title: string, commandType: nat, command: string) returns (handle: nat)
      modifies this
      ensures handle == old(current) && current == handle + 1
      ensures contexts == old(contexts)[handle := Context(title, command, commandType, true, NO_CHECKBOX, [])]
      ensures topLevel == old(topLevel) && parents == old(parents)
    {
      handle := current;
      current := current + 1;
      contexts := contexts[handle := Context(title, command, commandType, true, NO_CHECKBOX, [])];
    }

    method Insert(title: string, commandType: nat, command: string) returns (handle: nat)
      requires Valid()
      modifies this
      ensures Valid() && handle == old(current) && handle !in old(contexts)
      ensures Extends(old(State()), 0, Context(title, command, commandType, true, NO_CHECKBOX, []), State())
      ensures State().Shown() == old(State().Shown()) + [Node(Item(handle, title, command, commandType), [])]
    {
      ghost var was := State();
      handle := DoInsert(title, commandType, command);
      topLevel := topLevel + [handle];
      parents := parents[handle := 0];
      ghost var c := Context(title, command, commandType, true, NO_CHECKBOX, []);
      InsertAddsLeaf(was, 0, c, State());
      assert was.OwnsList(0);
      ForestIsDistinct(was, was.topLevel, 0);
      AddLeafNowhere(was.Shown(), 0, Node(ItemOf(c, handle), []), was.current);
    }

    /** The program stops when the parent is not in the menu. */
    method InsertUnder(parent: nat, title: string, commandType: nat, command: string) returns (handle: nat)
      requires Valid() && parent in contexts
      modifies this
      ensures Valid() && handle == old(current) && handle !in old(contexts)
      ensures Extends(old(State()), parent, Context(title, command, commandType, true, NO_CHECKBOX, []), State())
      ensures State().Shown() ==
                AddLeaf(old(State().Shown()), parent, Node(Item(handle, title, command, commandType), []))
    {
      ghost var was := State();
      handle := DoInsert(title, commandType, command);
      contexts := contexts[parent := contexts[parent].(subEntries := contexts[parent].subEntries + [handle])];
      parents := parents[handle := parent];
      InsertAddsLeaf(was, parent, Context(title, command, commandType, true, NO_CHECKBOX, []), State());
    }

    method SetVisible(handle: nat, visible: bool) returns (found: bool)
      requires Valid()
      modifies this`contexts
      ensures Valid() && (found <==> handle in old(contexts))
      ensures contexts == if found then old(contexts)[handle := old(contexts)[handle].(visible := visible)]
                else old(contexts)
      ensures found && !visible ==> State().Shown() == Prune(old(State().Shown()), handle)
    {
      if handle !in contexts { return false; }
      ghost var was := State();
      contexts := contexts[handle := contexts[handle].(visible := visible)];
      SetVisibleKeepsProper(was, handle, contexts[handle], State());
      if !visible {
        HidingPrunes(was, handle, State());
      }
      found := true;
    }

    method SetCheckState(handle: nat, checkState: CheckState) returns (found: bool)
      requires Valid()
      modifies this`contexts
      ensures Valid() && (found <==> handle in old(contexts))
      ensures contexts ==
                if found then old(contexts)[handle := old(contexts)[handle].(checkState := checkState)]
                    else old(contexts)
    {
      if handle !in contexts { return false; }
      ghost var was := State();
      contexts := contexts[handle := contexts[handle].(checkState := checkState)];
      SetVisibleKeepsProper(was, handle, contexts[handle], State());
      found := true;
    }

    /** Appends the visible entries; a listed handle is never missing from the table. */
    method PushMenuEntries(handles: seq<nat>, before: seq<MenuEntry>, parent: nat)
      returns (ok: bool, entries: seq<MenuEntry>)
      requires Valid() && State().OwnList(handles, parent)
      ensures ok && entries == before + Preorder(State().Forest(handles, parent), parent)
      decreases if parent < current then current - parent else 0
    {
      hide Table.Proper, Table.OwnList, Table.OwnsList, Table.Forest, Preorder, ItemOf;
      ghost var table := State();
      entries := before;
      assert handles[0..] == handles;
      for t := 0 to |handles|
        invariant table.OwnList(handles[t..], parent)
        invariant entries + Preorder(table.Forest(handles[t..], parent), parent)
               == before + Preorder(table.Forest(handles, parent), parent)
      {
        var handle := handles[t];
        assert handles[t..][0] == handle && handles[t..][1..] == handles[t + 1..];
        PushStep(table, handles[t..], parent);
        if handle !in contexts {
          assert false;
          return false, entries;
        }
        var context := contexts[handle];
        if !context.visible { continue; }
        entries := entries + [MenuEntry(ItemOf(context, handle), parent)];
        ok, entries := PushMenuEntries(context.subEntries, entries, handle);
        if !ok {
          assert false;
          return false, entries;
        }
      }
      PushNone(table, handles[|handles|..], parent);
      ok := true;
    }

    /** The entries as a marker carries them, from which the shown forest can be rebuilt. */
    method Apply() returns (entries: seq<MenuEntry>)
      requires Valid()
      ensures entries == Preorder(State().Shown(), 0)
      ensures Rebuild(entries, 0, 0, current) == State().Shown()
      ensures forall i :: 0 <= i < |entries| ==>
                && entries[i].item.id in contexts && entries[i].item.id in parents
                && ShowsContext(entries[i], contexts[entries[i].item.id], parents[entries[i].item.id])
    {
      assert State().OwnsList(0);
      ShownEntries(State());
      var ok;
      ok, entries := PushMenuEntries(topLevel, [], 0);
      ShownIsRecovered(State());
    }
  }

  lemma AddLeafNowhere(forest: seq<Tree>, parent: nat, leaf: Tree, bound: nat)
    requires Ascending(forest, parent, bound)
    ensures AddLeaf(forest, parent, leaf) == forest
  {
    AscendingIds(forest, parent, bound);
    AddLeafAbsent(forest, parent, leaf);
  }

  lemma {:induction false} AddLeafAbsent(forest: seq<Tree>, parent: nat, leaf: Tree)
    requires parent !in Ids(forest)
    ensures AddLeaf(forest, parent, leaf) == forest
    decreases forest
  {
    if forest != [] {
      AddLeafAbsent(forest[0].kids, parent, leaf);
      AddLeafAbsent(forest[1..], parent, leaf);
      assert forest[0].kids + [] == forest[0].kids;
      assert [forest[0]] + forest[1..] == forest;
    }
  }
}
