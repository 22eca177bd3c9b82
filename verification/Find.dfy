/** Searching a string for a delimiter; None stands for SIZE_MAX. */
module Find {
  import opened Wrappers

  method FindN(str: string, delimiter: char, length: nat) returns (r: Option<nat>)
    requires length <= |str|
    ensures r.Some? ==>
              r.value < length && str[r.value] == delimiter && forall j :: 0 <= j < r.value ==> str[j] != delimiter
    ensures r.None? ==> forall j :: 0 <= j < length ==> str[j] != delimiter
  {
    if length == 0 {
      return None;
    }
    var i := 0;
    while i < length
      invariant 0 <= i <= length && forall j :: 0 <= j < i ==> str[j] != delimiter
    {
      if str[i] == delimiter {
        return Some(i);
      }
      i := i + 1;
    }
    return None;
  }

  method FindLastN(str: string, delimiter: char, length: nat) returns (r: Option<nat>)
    requires length <= |str|
    ensures r.Some? ==>
              r.value < length && str[r.value] == delimiter && forall j :: r.value < j < length ==> str[j] != delimiter
    ensures r.None? ==> forall j :: 0 <= j < length ==> str[j] != delimiter
  {
    if length == 0 {
      return None;
    }
    var i := length - 1;
    while i > 0
      invariant 0 <= i < length && forall j :: i < j < length ==> str[j] != delimiter
    {
      if str[i] == delimiter {
        return Some(i);
      }
      i := i - 1;
    }
    if str[0] == delimiter {
      return Some(0);
    }
    return None;
  }
}
