/**
 The growable list of rcutils. State and the functions on it are the list as a value, with
 whether the allocator grants a request as a parameter; class ArrayList is the list over a
 backing array.
 */
module ArrayList {
  import opened Rcutils

  datatype State<T> = Uninitialized | List(items: seq<T>, capacity: nat)

  function Items<T>(s: State<T>): seq<T>
  {
    if s.Uninitialized? then [] else s.items
  }

  ghost predicate ValidState<T>(s: State<T>)
  {
    s.List? ==> |s.items| <= s.capacity && s.capacity >= 1
  }

  function Init<T>(s: State<T>, capacity: nat, granted: bool): (r: (Ret, State<T>))
    ensures ValidState(s) ==> ValidState(r.1)
    ensures Items(r.1) == Items(s)
    ensures r.0 == OK <==> s.Uninitialized? && r.1.List?
  {
    if s.List? || capacity < 1 then (INVALID_ARGUMENT, s)
    else if granted then (OK, List([], capacity))
    else (BAD_ALLOC, s)
  }

  /** A full list doubles its capacity first; when that fails the list is as it was. */
  function Add<T>(s: State<T>, x: T, granted: bool): (r: (Ret, State<T>))
    ensures ValidState(s) ==> ValidState(r.1)
    ensures r.0 == OK <==> s.List? && (|s.items| < s.capacity || granted)
    ensures Items(r.1) == if r.0 == OK then Items(s) + [x] else Items(s)
    ensures r.0 != OK ==> r.1 == s
  {
    if s.Uninitialized? then (INVALID_ARGUMENT, s)
    else if |s.items| + 1 <= s.capacity then (OK, s.(items := s.items + [x]))
    else if granted then (OK, List(s.items + [x], 2 * s.capacity))
    else (BAD_ALLOC, s)
  }

  function WithoutIndex<T>(items: seq<T>, i: nat): seq<T>
    requires i < |items|
  {
    items[..i] + items[i + 1..]
  }

  function Remove<T>(s: State<T>, i: nat): (r: (Ret, State<T>))
    ensures ValidState(s) ==> ValidState(r.1)
    ensures r.0 == OK <==> i < |Items(s)|
    ensures Items(r.1) == if i < |Items(s)| then WithoutIndex(Items(s), i) else Items(s)
  {
    if s.Uninitialized? || i >= |s.items| then (INVALID_ARGUMENT, s)
    else (OK, s.(items := WithoutIndex(s.items, i)))
  }

  class ArrayList<T(0)> {
    var initialized: bool
    var size: nat
    var list: array<T>

    ghost predicate Valid()
      reads this, list
    {
      initialized ==> size <= list.Length && list.Length >= 1
    }

    ghost function Abs(): (s: State<T>)
      reads this, list
      requires Valid()
      ensures ValidState(s)
    {
      if initialized then List(list[..size], list.Length) else Uninitialized
    }

    constructor ZeroInitialized()
      ensures Valid() && Abs() == Uninitialized
    {
      initialized, size := false, 0;
      list := new T[0];
    }

    method Initialize(capacity: nat, granted: bool) returns (ret: Ret)
      requires Valid()
      modifies this
      ensures Valid() && (ret, Abs()) == Init(old(Abs()), capacity, granted)
      ensures list == old(list) || fresh(list)
    {
      if initialized || capacity < 1 {
        return INVALID_ARGUMENT;
      }
      if !granted {
        return BAD_ALLOC;
      }
      initialized, size := true, 0;
      list := new T[capacity];
      return OK;
    }

    method AddItem(x: T, granted: bool) returns (ret: Ret)
      requires Valid()
      modifies this, list
      ensures Valid() && (ret, Abs()) == Add(old(Abs()), x, granted)
      ensures list == old(list) || fresh(list)
    {
      if !initialized {
        return INVALID_ARGUMENT;
      }
      if size + 1 > list.Length {
        if !granted {
          return BAD_ALLOC;
        }
        var bigger := new T[2 * list.Length];
        forall i | 0 <= i < size {
          bigger[i] := list[i];
        }
        list := bigger;
      }
      list[size] := x;
      size := size + 1;
      assert list[..size] == old(list[..size]) + [x];
      return OK;
    }

    method SetItem(i: nat, x: T) returns (ret: Ret)
      requires Valid()
      modifies list
      ensures Valid() && (ret == OK <==> i < |Items(old(Abs()))|)
      ensures Abs() == if ret == OK then old(Abs()).(items := old(Abs()).items[i := x]) else old(Abs())
    {
      if !initialized || size <= i {
        return INVALID_ARGUMENT;
      }
      list[i] := x;
      return OK;
    }

    /** Everything behind the removed item is shifted down by one. */
    method RemoveItem(i: nat) returns (ret: Ret)
      requires Valid()
      modifies this`size, list
      ensures Valid() && (ret, Abs()) == Remove(old(Abs()), i)
    {
      if !initialized || size <= i {
        return INVALID_ARGUMENT;
      }
      var j := i;
      while j + 1 < size
        invariant i <= j < size == old(size)
        invariant forall k :: 0 <= k < i || j < k < list.Length ==> list[k] == old(list[k])
        invariant forall k :: i <= k < j ==> list[k] == old(list[k + 1])
      {
        list[j] := list[j + 1];
        j := j + 1;
      }
      size := size - 1;
      assert list[..size] == WithoutIndex(old(list[..size]), i);
      return OK;
    }

    method GetItem(i: nat) returns (ret: Ret, x: T)
      requires Valid()
      ensures ret == OK <==> i < |Items(Abs())|
      ensures ret == OK ==> x == Items(Abs())[i]
    {
      if !initialized || size <= i {
        ret := INVALID_ARGUMENT;
        x := *;
      } else {
        ret, x := OK, list[i];
      }
    }
  }
}
