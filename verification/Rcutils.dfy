/** Return codes shared by the rcutils containers. */
module Rcutils {

  datatype Ret = OK | ERROR | BAD_ALLOC | INVALID_ARGUMENT | NOT_FOUND | NO_MORE_ENTRIES

  /** Requests for more elements than can be addressed are refused. */
  const MAX_ELEMENTS := 0x200_0000_0000_0000

  /**
   The allocator a container is given. grants says how it answers its k-th request, depending on
   the number of elements asked for; answers are those given so far.
   */
  class Allocator {
    const grants: (nat, nat) -> bool
    var requests: nat
    ghost var answers: seq<bool>

    ghost predicate Valid()
      reads this
    {
      requests == |answers|
    }

    constructor (grants: (nat, nat) -> bool)
      ensures Valid() && answers == [] && this.grants == grants
    {
      this.grants := grants;
      requests, answers := 0, [];
    }

    predicate Granted(k: nat, elements: nat)
    {
      elements <= MAX_ELEMENTS && grants(k, elements)
    }

    /** No request was refused after the first n. */
    ghost predicate NoneRefused(n: nat)
      reads this
    {
      forall k :: n <= k < |answers| ==> answers[k]
    }

    method Request(elements: nat) returns (ok: bool)
      requires Valid()
      modifies this
      ensures Valid() && ok == Granted(old(requests), elements) && answers == old(answers) + [ok]
      ensures forall n: nat :: n <= old(requests) ==> (NoneRefused(n) <==> old(NoneRefused(n)) && ok)
    {
      ok := Granted(requests, elements);
      requests, answers := requests + 1, answers + [ok];
      assert answers[old(requests)] == ok;
      assert forall k :: 0 <= k < old(requests) ==> answers[k] == old(answers)[k];
    }
  }
}
