/** Replacing every occurrence of a string by another, in two passes with a cache of positions. */
module ReplStr {
  import opened Wrappers

  // ---------- what replacing means ----------

  /** From left to right, each occurrence is replaced and scanning goes on behind it. */
  function Replace(s: string, from: string, to: string): string
    requires from != ""
  {
    if |s| < |from| then s
    else if from <= s then to + Replace(s[|from|..], from, to)
    else [s[0]] + Replace(s[1..], from, to)
  }

  predicate OccursAt(s: string, from: string, i: nat)
  {
    i + |from| <= |s| && s[i..i + |from|] == from
  }

  /** The first occurrence at or behind index i. */
  function StrStr(s: string, from: string, i: nat): (r: Option<nat>)
    requires i <= |s|
    ensures r.Some? ==>
              i <= r.value && OccursAt(s, from, r.value) && forall k :: i <= k < r.value ==> !OccursAt(s, from, k)
    ensures r.None? ==> forall k :: i <= k ==> !OccursAt(s, from, k)
    decreases |s| - i
  {
    if OccursAt(s, from, i) then Some(i)
    else if i == |s| then None
    else StrStr(s, from, i + 1)
  }

  lemma {:induction false} ReplaceFromMatch(s: string, from: string, to: string, i: nat, j: nat)
    requires from != "" && i <= j && j + |from| <= |s| && OccursAt(s, from, j)
    requires forall k :: i <= k < j ==> !OccursAt(s, from, k)
    ensures Replace(s[i..], from, to) == s[i..j] + to + Replace(s[j + |from|..], from, to)
    decreases j - i
  {
    ReplaceAt(s, from, to, i);
    hide Replace, OccursAt;
    if i == j {
      assert s[i..j] == "";
    } else {
      ReplaceFromMatch(s, from, to, i + 1, j);
      assert s[i..j] == [s[i]] + s[i + 1..j];
    }
  }

  lemma ReplaceAt(s: string, from: string, to: string, i: nat)
    requires from != "" && i + |from| <= |s|
    ensures Replace(s[i..], from, to) ==
            if OccursAt(s, from, i) then to + Replace(s[i + |from|..], from, to)
            else [s[i]] + Replace(s[i + 1..], from, to)
  {
    assert s[i..][..|from|] == s[i..i + |from|];
    assert s[i..][|from|..] == s[i + |from|..] && s[i..][1..] == s[i + 1..];
  }

  lemma {:induction false} ReplaceWithoutMatch(s: string, from: string, to: string, i: nat)
    requires from != "" && i <= |s|
    requires forall k :: i <= k ==> !OccursAt(s, from, k)
    ensures Replace(s[i..], from, to) == s[i..]
    decreases |s| - i
  {
    if |s| - i >= |from| {
      ReplaceAt(s, from, to, i);
      ReplaceWithoutMatch(s, from, to, i + 1);
    }
  }

  // ---------- the positions of the first pass ----------

  /** Where the last occurrence ends. */
  function End(ps: seq<nat>, width: nat): nat
  {
    if ps == [] then 0 else ps[|ps| - 1] + width
  }

  /** Occurrences in order that do not overlap. */
  ghost predicate Spaced(s: string, width: nat, ps: seq<nat>)
  {
    if ps == [] then true
    else
      var before, p := ps[..|ps| - 1], ps[|ps| - 1];
      Spaced(s, width, before) && End(before, width) <= p && p + width <= |s|
  }

  /** The result up to and with the last replacement. */
  ghost function Assembled(s: string, width: nat, to: string, ps: seq<nat>): (r: string)
    requires Spaced(s, width, ps)
    ensures End(ps, width) <= |s|
  {
    if ps == [] then ""
    else
      var before, p := ps[..|ps| - 1], ps[|ps| - 1];
      Assembled(s, width, to, before) + s[End(before, width)..p] + to
  }

  lemma {:induction false} AssembledLength(s: string, width: nat, to: string, ps: seq<nat>)
    requires Spaced(s, width, ps)
    ensures |Assembled(s, width, to, ps)| == End(ps, width) + Times(|to| - width, |ps|)
    decreases |ps|
  {
    if ps != [] {
      var before, p := ps[..|ps| - 1], ps[|ps| - 1];
      AssembledLength(s, width, to, before);
      OneMore(|to|, width, |ps|);
      hide Times, Spaced;
      var gap := s[End(before, width)..p];
      assert Assembled(s, width, to, ps) == Assembled(s, width, to, before) + gap + to;
      hide *;
      assert |gap| == p - End(before, width);
    }
  }

  function Times(x: int, n: nat): int
  {
    x * n
  }

  lemma OneMore(to: nat, width: nat, n: nat)
    requires n > 0
    ensures Times(to - width, n) == Times(to - width, n - 1) + to - width
  {
  }

  lemma {:induction false} SpacedPrefix(s: string, width: nat, ps: seq<nat>, n: nat)
    requires Spaced(s, width, ps) && n <= |ps|
    ensures Spaced(s, width, ps[..n])
    decreases |ps|
  {
    if n < |ps| {
      var before := ps[..|ps| - 1];
      SpacedPrefix(s, width, before, n);
      assert before[..n] == ps[..n];
    } else {
      assert ps[..n] == ps;
    }
  }

  /** One replacement more. */
  lemma AssembledStep(s: string, width: nat, to: string, ps: seq<nat>, n: nat)
    requires Spaced(s, width, ps) && n < |ps|
    ensures Spaced(s, width, ps[..n]) && Spaced(s, width, ps[..n + 1])
    ensures End(ps[..n], width) <= ps[n] && ps[n] + width == End(ps[..n + 1], width) <= |s|
    ensures Assembled(s, width, to, ps[..n + 1]) ==
              Assembled(s, width, to, ps[..n]) + s[End(ps[..n], width)..ps[n]] + to
  {
    SpacedPrefix(s, width, ps, n);
    SpacedPrefix(s, width, ps, n + 1);
    assert ps[..n + 1][..n] == ps[..n];
  }

  // ---------- lengths ----------

  /** size_t holds 64 bits; its arithmetic wraps around. */
  const SIZE := 0x1_0000_0000_0000_0000

  function Wrap(x: int): nat
  {
    x % SIZE
  }

  function WrappedLength(orgLen: nat, toLen: nat, fromLen: nat, count: nat): nat
  {
    Wrap(orgLen + Wrap(Wrap(toLen - fromLen) * count))
  }

  lemma {:induction false} WrapTimes(x: int, n: nat)
    ensures Wrap(Wrap(x) * n) == Wrap(Times(x, n))
  {
    var q := x / SIZE;
    assert x == q * SIZE + Wrap(x);
    assert x * n == (q * n) * SIZE + Wrap(x) * n;
    WrapMultiple(Wrap(x) * n, q * n);
  }

  lemma WrapMultiple(x: int, k: int)
    ensures Wrap(k * SIZE + x) == Wrap(x)
  {
  }

  /** A shorter replacement makes the factor wrap around; the sum is right all the same. */
  lemma LengthWraps(orgLen: nat, toLen: nat, fromLen: nat, count: nat)
    ensures WrappedLength(orgLen, toLen, fromLen, count) == Wrap(orgLen + Times(toLen - fromLen, count))
  {
    WrapTimes(toLen - fromLen, count);
    hide Times;
    var x := Times(toLen - fromLen, count);
    assert x == x / SIZE * SIZE + Wrap(x);
    WrapMultiple(orgLen + Wrap(x), x / SIZE);
  }

  /** The number of replacements. */
  function Count(s: string, from: string): nat
    requires from != ""
  {
    if |s| < |from| then 0
    else if from <= s then 1 + Count(s[|from|..], from)
    else Count(s[1..], from)
  }

  lemma {:induction false} ReplaceLength(s: string, from: string, to: string)
    requires from != ""
    ensures |Replace(s, from, to)| == |s| + Times(|to| - |from|, Count(s, from))
    decreases |s|
  {
    if |s| >= |from| {
      if from <= s {
        ReplaceLength(s[|from|..], from, to);
        OneMore(|to|, |from|, Count(s, from));
        hide Times;
      } else {
        ReplaceLength(s[1..], from, to);
      }
    }
  }

  /** The computed length is the length of the result, exactly when that length can be represented. */
  lemma LengthIsExact(s: string, from: string, to: string)
    requires from != ""
    ensures WrappedLength(|s|, |to|, |from|, Count(s, from)) == |Replace(s, from, to)| <==>
              |Replace(s, from, to)| < SIZE
  {
    ReplaceLength(s, from, to);
    hide Replace, Count, Times, WrappedLength;
    LengthWraps(|s|, |to|, |from|, Count(s, from));
  }

  lemma {:induction false} AllMatch(n: nat)
    ensures Count(seq(n, _ => 'a'), "a") == n
  {
    if n > 0 {
      var s := seq(n, _ => 'a');
      assert "a" <= s && s[|"a"|..] == seq(n - 1, _ => 'a');
      AllMatch(n - 1);
    }
  }

  /** 2^33 occurrences replaced by 2^33 characters each: the result has 2^66 characters, and the
      computed length is 0. */
  lemma LengthWrapsToZero()
    ensures var n := 0x2_0000_0000;
            var s, to := seq(n, _ => 'a'), seq(n, _ => 'b');
            && |Replace(s, "a", to)| == 4 * SIZE
            && WrappedLength(|s|, |to|, |"a"|, Count(s, "a")) == 0
  {
    var n := 0x2_0000_0000;
    var s, to := seq(n, _ => 'a'), seq(n, _ => 'b');
    AllMatch(n);
    ReplaceLength(s, "a", to);
    LengthWraps(|s|, |to|, |"a"|, n);
    assert n + Times(n - 1, n) == 4 * SIZE;
  }

  lemma CountAssembled(s: string, from: string, to: string, ps: seq<nat>)
    requires from != "" && Spaced(s, |from|, ps)
    requires Replace(s, from, to) == Assembled(s, |from|, to, ps) + s[End(ps, |from|)..]
    ensures |s| + Times(|to| - |from|, |ps|) == |Replace(s, from, to)|
  {
    AssembledLength(s, |from|, to, ps);
    hide Times;
  }

  /** What the copy loop has written before its n-th step. */
  ghost function Copied(s: string, width: nat, to: string, ps: seq<nat>, n: nat): string
    requires Spaced(s, width, ps) && n <= |ps|
  {
    SpacedPrefix(s, width, ps, n);
    Assembled(s, width, to, ps[..n]) + Gap(s, width, ps, n)
  }

  /** The text between replacement n and the next, or the end. */
  ghost function Gap(s: string, width: nat, ps: seq<nat>, n: nat): string
    requires Spaced(s, width, ps) && n <= |ps|
  {
    SpacedPrefix(s, width, ps, n);
    EndPrefix(s, width, ps, n);
    s[End(ps[..n], width)..if n == |ps| then |s| else ps[n]]
  }

  lemma EndPrefix(s: string, width: nat, ps: seq<nat>, n: nat)
    requires Spaced(s, width, ps) && n <= |ps|
    ensures End(ps[..n], width) <= |s| && (n < |ps| ==> End(ps[..n], width) <= ps[n] <= |s|)
  {
    if n < |ps| {
      AssembledStep(s, width, "", ps, n);
    } else {
      assert ps[..n] == ps;
    }
  }

  lemma CopyStep(s: string, width: nat, to: string, ps: seq<nat>, n: nat)
    requires Spaced(s, width, ps) && n < |ps|
    ensures Copied(s, width, to, ps, n + 1) == Copied(s, width, to, ps, n) + to + Gap(s, width, ps, n + 1)
    ensures ps[n] + width <= (if n + 1 == |ps| then |s| else ps[n + 1]) <= |s|
    ensures Gap(s, width, ps, n + 1) == s[ps[n] + width..if n + 1 == |ps| then |s| else ps[n + 1]]
  {
    AssembledStep(s, width, to, ps, n);
    EndPrefix(s, width, ps, n + 1);
  }

  lemma {:induction false} CopyFits(s: string, width: nat, to: string, ps: seq<nat>, n: nat)
    requires Spaced(s, width, ps) && n <= |ps|
    ensures |Copied(s, width, to, ps, n)| <= |Assembled(s, width, to, ps) + s[End(ps, width)..]|
    decreases |ps| - n
  {
    if n == |ps| {
      assert ps[..n] == ps;
    } else {
      CopyStep(s, width, to, ps, n);
      CopyFits(s, width, to, ps, n + 1);
    }
  }

  lemma CopiedAll(s: string, width: nat, to: string, ps: seq<nat>)
    requires Spaced(s, width, ps)
    ensures Copied(s, width, to, ps, |ps|) == Assembled(s, width, to, ps) + s[End(ps, width)..]
  {
    assert ps[..|ps|] == ps;
  }

  lemma FirstPiece(s: string, width: nat, to: string, ps: seq<nat>)
    requires Spaced(s, width, ps) && ps != []
    ensures ps[0] <= |s| && Copied(s, width, to, ps, 0) == s[..ps[0]]
  {
    EndPrefix(s, width, ps, 0);
    assert ps[..0] == [];
  }

  // ---------- the two passes ----------

  /** sizeof(uintptr_t) */
  const POSITION_SIZE := 8

  /** Below this length of the string the size of the cache in bytes does not wrap around. */
  const MAX_STRING := 0x1000_0000_0000_0000

  const CACHE_INC := 16
  const CACHE_INC_FACTOR := 3
  const CACHE_INC_MAX := 1048576

  lemma NothingYet(str: string, from: string, to: string)
    requires from != ""
    ensures Spaced(str, |from|, [])
              && Replace(str, from, to) == Assembled(str, |from|, to, []) + Replace(str[0..], from, to)
  {
    assert str[0..] == str;
  }

  lemma OneFound(str: string, from: string, to: string, found: seq<nat>, end: nat, pos: nat)
    requires from != "" && Spaced(str, |from|, found) && end == End(found, |from|) <= |str|
               && StrStr(str, from, end) == Some(pos)
    requires Replace(str, from, to) == Assembled(str, |from|, to, found) + Replace(str[end..], from, to)
    ensures Spaced(str, |from|, found + [pos]) && end <= pos && pos + |from| == End(found + [pos], |from|) <= |str|
    ensures Replace(str, from, to) == Assembled(str, |from|, to, found + [pos]) + Replace(str[pos + |from|..], from, to)
  {
    ReplaceFromMatch(str, from, to, end, pos);
    hide *;
    Append4(Assembled(str, |from|, to, found), str[end..pos], to, Replace(str[pos + |from|..], from, to));
  }

  lemma Append4(a: string, b: string, c: string, d: string)
    ensures a + (b + c + d) == a + b + c + d
  {
  }

  /** The old elements, in a larger array. */
  method Reallocate(cache: array<nat>, size: nat) returns (bigger: array<nat>)
    requires cache.Length <= size
    ensures fresh(bigger) && bigger.Length == size && bigger[..cache.Length] == cache[..]
  {
    bigger := new nat[size];
    forall i | 0 <= i < cache.Length {
      bigger[i] := cache[i];
    }
  }

  /** Copies a string to a place in the buffer. */
  method MemCpy(dst: array<char>, at: nat, src: string)
    requires at + |src| <= dst.Length
    modifies dst
    ensures dst[..at + |src|] == old(dst[..at]) + src
  {
    forall i | 0 <= i < |src| {
      dst[at + i] := src[i];
    }
  }

  /**
   All matches, in a cache that is always large enough. The k-th request for memory succeeds
   when grants(k); a refused one ends the search.
   */
  method FindMatches(str: string, from: string, ghost to: string, grants: nat -> bool)
    returns (ok: bool, cache: array<nat>, count: nat, end: nat, requests: nat)
    requires from != ""
    ensures fresh(cache) && ((forall k :: grants(k)) ==> ok)
    ensures ok ==> count <= cache.Length < count + CACHE_INC_MAX && count <= |str|
    ensures ok && |str| < MAX_STRING ==> POSITION_SIZE * cache.Length < SIZE
    ensures ok ==> Spaced(str, |from|, cache[..count]) && end == End(cache[..count], |from|) <= |str|
    ensures ok ==> Replace(str, from, to) == Assembled(str, |from|, to, cache[..count]) + str[end..]
  {
    hide Replace, Assembled, Spaced, StrStr;
    cache, count, end, requests := new nat[0], 0, 0, 0;
    NothingYet(str, from, to);
    var inc := CACHE_INC;
    ok := true;
    assert cache[..0] == [];
    var next := StrStr(str, from, 0);
    while next.Some?
      invariant fresh(cache)
      invariant count <= end <= |str| && next == StrStr(str, from, end)
      invariant count <= cache.Length < count + CACHE_INC_MAX && 0 < inc <= CACHE_INC_MAX
      invariant Spaced(str, |from|, cache[..count]) && end == End(cache[..count], |from|)
      invariant Replace(str, from, to) == Assembled(str, |from|, to, cache[..count]) + Replace(str[end..], from, to)
      decreases |str| - end
    {
      var pos := next.value;
      ghost var found := cache[..count];
      count := count + 1;
      if cache.Length < count {
        requests := requests + 1;
        if !grants(requests - 1) {
          return false, cache, count, end, requests;
        }
        cache := Reallocate(cache, cache.Length + inc);
        inc := inc * CACHE_INC_FACTOR;
        if inc > CACHE_INC_MAX { inc := CACHE_INC_MAX; }
      }
      cache[count - 1] := pos;
      assert cache[..count] == found + [pos];
      OneFound(str, from, to, found, end, pos);
      end := pos + |from|;
      next := StrStr(str, from, end);
    }
    ReplaceWithoutMatch(str, from, to, end);
  }

  /** The replacement, and what follows it in the original. */
  method CopyPiece(ret: array<char>, pret: nat, to: string, rest: string) returns (next: nat)
    requires pret + |to| + |rest| <= ret.Length
    modifies ret
    ensures next == pret + |to| + |rest| && ret[..next] == old(ret[..pret]) + to + rest
  {
    MemCpy(ret, pret, to);
    MemCpy(ret, pret + |to|, rest);
    next := pret + |to| + |rest|;
  }

  /** The second pass: the copy loop fills the buffer up to the terminator, and no further. */
  method CopyReplaced(str: string, from: string, to: string, cache: array<nat>, count: nat, retLen: nat,
                      ret: array<char>)
    requires from != "" && 0 < count <= cache.Length && Spaced(str, |from|, cache[..count])
    requires |Assembled(str, |from|, to, cache[..count]) + str[End(cache[..count], |from|)..]| == retLen
    requires ret.Length == retLen + 1
    modifies ret
    ensures ret[..] == Assembled(str, |from|, to, cache[..count]) + str[End(cache[..count], |from|)..] + ['\0']
  {
    hide Copied, Spaced, Assembled, Gap, End;
    ghost var ps := cache[..count];
    FirstPiece(str, |from|, to, ps);
    CopyFits(str, |from|, to, ps, 0);
    MemCpy(ret, 0, str[..cache[0]]);
    var pret: nat := cache[0];
    for i := 0 to count
      invariant pret <= ret.Length && ret[..pret] == Copied(str, |from|, to, ps, i)
    {
      CopyStep(str, |from|, to, ps, i);
      CopyFits(str, |from|, to, ps, i + 1);
      var start := cache[i] + |from|;
      var copyLen := (if i == count - 1 then |str| else cache[i + 1]) - cache[i] - |from|;
      assert str[start..start + copyLen] == Gap(str, |from|, ps, i + 1);
      pret := CopyPiece(ret, pret, to, str[start..start + copyLen]);
    }
    CopiedAll(str, |from|, to, ps);
    ghost var text := ret[..retLen];
    ret[retLen] := '\0';
    assert ret[..] == ret[..retLen] + [ret[retLen]] && ret[..retLen] == text;
  }

  method StrCpy(dst: array<char>, src: string)
    requires |src| + 1 == dst.Length
    modifies dst
    ensures dst[..] == src + ['\0']
  {
    MemCpy(dst, 0, src);
    dst[|src|] := '\0';
    assert dst[..|src|] == src;
  }

  /** The text with all replacements, zero-terminated, or null when memory is refused. When the
      text and its terminator are too long for size_t, the buffer asked for is too short for them:
      the copy loop would overrun it. */
  method ReplStr(str: string, from: string, to: string, grants: nat -> bool) returns (ret: array?<char>, overrun: bool)
    requires from != "" && |str| + 1 < SIZE
    ensures ret != null ==> ret[..] == Replace(str, from, to) + ['\0']
    ensures (forall k :: grants(k)) ==> (ret != null <==> |Replace(str, from, to)| + 1 < SIZE)
    ensures overrun ==> |Replace(str, from, to)| + 1 >= SIZE && ret == null
    ensures (forall k :: grants(k)) && ret == null ==> overrun
  {
    var ok, cache, count, pstr, requests := FindMatches(str, from, to, grants);
    if !ok { return null, false; }
    ghost var ps := cache[..count];
    hide Replace, Assembled, Spaced, End, Wrap, WrappedLength, Times;
    var orgLen := pstr + |str[pstr..]|;
    CountAssembled(str, from, to, ps);
    TimesZero(|to| - |from|);
    var retLen := if count > 0 then WrappedLength(orgLen, |to|, |from|, count) else orgLen;
    if !grants(requests) { return null, false; }
    BufferFits(str, from, to, ps, retLen);
    ret, overrun := new char[Wrap(retLen + 1)], false;
    if ret.Length != orgLen + Times(|to| - |from|, count) + 1 { return null, true; }
    if count == 0 {
      assert ps == [];
      StrCpy(ret, str);
    } else {
      CopyReplaced(str, from, to, cache, count, retLen, ret);
    }
  }

  /** The buffer has the size of the text and its terminator exactly when size_t can hold that. */
  lemma BufferFits(s: string, from: string, to: string, ps: seq<nat>, retLen: nat)
    requires from != "" && |s| + 1 < SIZE && |s| + Times(|to| - |from|, |ps|) == |Replace(s, from, to)|
    requires retLen == if ps == [] then |s| else WrappedLength(|s|, |to|, |from|, |ps|)
    ensures Wrap(retLen + 1) == |Replace(s, from, to)| + 1 <==> |Replace(s, from, to)| + 1 < SIZE
    ensures |Replace(s, from, to)| + 1 < SIZE ==> retLen == |Replace(s, from, to)|
  {
    TimesZero(|to| - |from|);
    hide Replace, Times, WrappedLength;
    LengthWraps(|s|, |to|, |from|, |ps|);
  }

  lemma TimesZero(x: int)
    ensures Times(x, 0) == 0
  {
  }
}
