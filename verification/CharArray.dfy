/**
 The growing character buffer log messages are built in. length counts the terminating zero, and
 is 0 for a buffer nothing was written to. A buffer handed in from outside is not owned and is
 replaced, never resized.
 */
module CharArray {
  import opened Rcutils

  const TERMINATOR := '\0'

  lemma SamePrefix(a: string, b: string, n: nat, length: nat)
    requires n <= |a| && n <= |b| && a[..n] == b[..n]
    ensures 0 < length <= n ==> a[..length - 1] == b[..length - 1] && a[length - 1] == b[length - 1]
  {
    if 0 < length <= n {
      assert a[..n][..length - 1] == a[..length - 1] && b[..n][..length - 1] == b[..length - 1];
      assert a[..n][length - 1] == b[..n][length - 1];
    }
  }

  class CharArray {
    var buffer: array<char>
    var length: nat
    var ownsBuffer: bool
    /** A failed resize of an owned buffer has given it back to the allocator. */
    ghost var lost: bool

    ghost predicate Valid()
      reads this, buffer
    {
      && !lost && length <= buffer.Length
      && (length > 0 ==> buffer[length - 1] == TERMINATOR)
      && (!ownsBuffer ==> buffer.Length >= 1)
    }

    ghost function Contents(): string
      reads this, buffer
      requires Valid()
    {
      if length == 0 then "" else buffer[..length - 1]
    }

    constructor (capacity: nat)
      ensures Valid() && Contents() == "" && fresh(buffer)
    {
      buffer := new char[capacity](_ => TERMINATOR);
      length, ownsBuffer, lost := 0, true, false;
    }

    method Resize(newSize: nat, granted: bool) returns (ret: Ret)
      requires Valid()
      modifies this, buffer
      ensures buffer == old(buffer) || fresh(buffer)
      ensures ret == OK <==> newSize > 0 && (newSize == old(buffer.Length) || granted)
      ensures ret in {OK, INVALID_ARGUMENT, BAD_ALLOC} && (ret == INVALID_ARGUMENT <==> newSize == 0)
      ensures ret == OK ==> buffer.Length == newSize
      ensures ret == OK && newSize >= old(length) ==> Valid() && Contents() == old(Contents())
      ensures ret == OK && newSize < old(length) ==> length == newSize
      ensures ret == OK && newSize < old(length) ==>
                buffer[..newSize] ==
                    old(buffer[..newSize - 1]) + [if old(ownsBuffer) then old(buffer[newSize - 1]) else TERMINATOR]
      ensures ret == INVALID_ARGUMENT ==> Valid() && Contents() == old(Contents())
      ensures ret == BAD_ALLOC ==> if old(ownsBuffer) then lost else Valid() && Contents() == ""
    {
      if newSize == 0 {
        return INVALID_ARGUMENT;
      }
      if newSize == buffer.Length {
        return OK;
      }
      var oldBuffer, oldLength := buffer, length;
      ghost var was := buffer[..];
      if ownsBuffer {
        if !granted {
          lost := true;
          return BAD_ALLOC;
        }
        var n := NewBuffer(newSize);
        SamePrefix(buffer[..], oldBuffer[..], n, oldLength);
      } else {
        ownsBuffer, length := true, 0;
        if !granted {
          buffer := new char[0];
          return BAD_ALLOC;
        }
        var n := NewBuffer(newSize);
        SamePrefix(buffer[..], oldBuffer[..], n, oldLength);
        ghost var copied := buffer[..];
        buffer[n - 1] := TERMINATOR;
        assert buffer[..] == copied[n - 1 := TERMINATOR];
      }
      length := if newSize < oldLength then newSize else oldLength;
      assert oldBuffer[..] == was;
      return OK;
    }

    /** Continues with a new buffer that begins with as much of the old one as fits. */
    method NewBuffer(newSize: nat) returns (n: nat)
      modifies this`buffer
      ensures fresh(buffer) && buffer.Length == newSize
      ensures n == if newSize < old(buffer.Length) then newSize else old(buffer.Length)
      ensures buffer[..n] == old(buffer[..n]) && forall i :: n <= i < newSize ==> buffer[i] == TERMINATOR
    {
      var oldBuffer := buffer;
      n := if newSize < oldBuffer.Length then newSize else oldBuffer.Length;
      buffer := new char[newSize](_ => TERMINATOR);
      CopyFrom(oldBuffer, n);
    }

    method CopyFrom(source: array<char>, n: nat)
      requires n <= source.Length && n <= buffer.Length && source != buffer
      modifies buffer
      ensures buffer[..n] == source[..n]
      ensures forall i :: n <= i < buffer.Length ==> buffer[i] == old(buffer[i])
    {
      forall i | 0 <= i < n {
        buffer[i] := source[i];
      }
    }

    /** Grows by at least half of the capacity, when it has to grow at all. */
    method ExpandAsNeeded(newSize: nat, granted: bool) returns (ret: Ret)
      requires Valid()
      modifies this, buffer
      ensures buffer == old(buffer) || fresh(buffer)
      ensures ret == OK <==> newSize <= old(buffer.Length) || granted
      ensures ret == OK ==> Valid() && Contents() == old(Contents()) && buffer.Length >= newSize
      ensures ret == OK && newSize > old(buffer.Length) ==> 2 * buffer.Length >= 3 * old(buffer.Length) - 1
      ensures ret != OK ==> ret == BAD_ALLOC && if old(ownsBuffer) then lost else Valid() && Contents() == ""
    {
      if newSize <= buffer.Length {
        return OK;
      }
      var minimum := buffer.Length + buffer.Length / 2;
      ret := Resize(if newSize < minimum then minimum else newSize, granted);
    }

    method StrNCat(source: string, granted: bool) returns (ret: Ret)
      requires Valid()
      modifies this, buffer
      ensures buffer == old(buffer) || fresh(buffer)
      ensures granted ==> ret == OK
      ensures ret == OK ==> Valid() && Contents() == old(Contents()) + source
      ensures ret != OK ==> ret == BAD_ALLOC && if old(ownsBuffer) then lost else Valid() && Contents() == ""
    {
      var current := if length == 0 then 0 else length - 1;
      var newLength := current + |source| + 1;
      ret := ExpandAsNeeded(newLength, granted);
      if ret != OK {
        return;
      }
      ghost var before := Contents();
      assert before == buffer[..current];
      forall i | 0 <= i < |source| {
        buffer[current + i] := source[i];
      }
      buffer[newLength - 1] := TERMINATOR;
      length := newLength;
      assert buffer[..newLength - 1] == before + source;
    }
  }
}
