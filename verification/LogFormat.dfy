/**
 The output format of log messages. A format is compiled once into a list of handlers - copy a
 piece of the format, or write the text of a token - and every message is made by running them.
 */
module LogFormat {
  import opened Wrappers
  import opened Rcutils
  import F = Find
  import C = CharArray

  const OPEN := '{'
  const CLOSE := '}'
  const MAX_HANDLERS := 1024

  predicate IsToken(s: string)
  {
    s in {"severity", "name", "message", "function_name", "file_name", "time", "date_time_with_ms",
          "time_as_nanoseconds", "line_number"}
  }

  datatype Handler = CopyFromFormat(start: nat, end: nat) | ExpandToken(token: string)

  // ---------- what a format means ----------

  function FirstClose(s: string): Option<nat>
  {
    if s == [] then None
    else if s[0] == CLOSE then Some(0)
    else match FirstClose(s[1..])
      case None => None
      case Some(i) => Some(i + 1)
  }

  /** The token that starts s, if s starts with {token} for a known token. */
  function LeadingToken(s: string): Option<string>
  {
    if s == [] || s[0] != OPEN then None
    else
      match FirstClose(s)
      case None => None
      case Some(i) => if 1 <= i < |s| && IsToken(s[1..i]) then Some(s[1..i]) else None
  }

  /** Direct expansion: known tokens become their text, everything else is copied. */
  function Expansion(s: string, text: string -> string): string
  {
    if s == [] then []
    else
      match LeadingToken(s)
      case None => [s[0]] + Expansion(s[1..], text)
      case Some(token) => if |token| + 2 <= |s| then text(token) + Expansion(s[|token| + 2..], text) else []
  }

  lemma {:induction false} FirstCloseIs(s: string)
    ensures FirstClose(s).Some? ==>
              var i := FirstClose(s).value; i < |s| && s[i] == CLOSE && forall j :: 0 <= j < i ==> s[j] != CLOSE
    ensures FirstClose(s).None? ==> forall j :: 0 <= j < |s| ==> s[j] != CLOSE
  {
    if s != [] {
      FirstCloseIs(s[1..]);
      assert forall j :: 1 <= j < |s| ==> s[j] == s[1..][j - 1];
    }
  }

  /** Cutting a string short keeps a leading token exactly if it is still complete. */
  lemma LeadingTokenOfPrefix(s: string, n: nat)
    requires 1 <= n <= |s|
    ensures LeadingToken(s[..n]) == match LeadingToken(s)
                                    case None => None
                                    case Some(t) => if |t| + 2 <= n then Some(t) else None
  {
    FirstCloseIs(s);
    FirstCloseIs(s[..n]);
    if FirstClose(s).Some? && FirstClose(s).value < n {
      var i := FirstClose(s).value;
      assert s[..n][i] == CLOSE;
      assert FirstClose(s[..n]) == Some(i);
      if i >= 1 {
        assert s[..n][1..i] == s[1..i];
      }
    } else {
      assert FirstClose(s[..n]).None?;
    }
  }

  /** What stands in braces is expanded if it is one of the nine tokens; otherwise it is copied. */
  lemma BracesExpand(token: string, rest: string, text: string -> string)
    requires '}' !in token
    ensures Expansion("{" + token + "}" + rest, text) ==
              if token in {"severity", "name", "message", "function_name", "file_name", "time", "date_time_with_ms",
                           "time_as_nanoseconds", "line_number"}
              then text(token) + Expansion(rest, text)
              else "{" + Expansion(token + "}" + rest, text)
  {
    var s := "{" + token + "}" + rest;
    FirstCloseIs(s);
    assert s[|token| + 1] == '}' && s[1..|token| + 1] == token;
    assert FirstClose(s) == Some(|token| + 1);
    assert s[|token| + 2..] == rest && s[1..] == token + "}" + rest;
  }

  /** Up to its first opening brace a format is copied. */
  lemma {:induction false} TextIsCopied(s: string, rest: string, text: string -> string)
    requires '{' !in s
    ensures Expansion(s + rest, text) == s + Expansion(rest, text)
  {
    if s == [] {
      assert s + rest == rest;
    } else {
      assert (s + rest)[0] == s[0] && (s + rest)[1..] == s[1..] + rest;
      TextIsCopied(s[1..], rest, text);
    }
  }

  // ---------- handlers ----------

  function TextOf(h: Handler, format: string, text: string -> string): string
  {
    match h
    case CopyFromFormat(start, end) => if start <= end <= |format| then format[start..end] else []
    case ExpandToken(token) => text(token)
  }

  function Run(hs: seq<Handler>, format: string, text: string -> string): string
  {
    if hs == [] then [] else TextOf(hs[0], format, text) + Run(hs[1..], format, text)
  }

  /** h covers the format from one position up to another: a copied piece in which no token
      starts, or a token with its delimiters. */
  ghost predicate Covers(h: Handler, format: string, from: nat, to: nat)
  {
    && from < to <= |format|
    && match h
       case CopyFromFormat(start, end) =>
         start == from && end == to && forall x :: from <= x < to ==> LeadingToken(format[x..]).None?
       case ExpandToken(token) =>
         LeadingToken(format[from..]) == Some(token) && to == from + |token| + 2
  }

  /** The handlers cover the format from left to right without gap or overlap. */
  ghost predicate Tiles(hs: seq<Handler>, format: string, from: nat, to: nat)
  {
    if hs == [] then from == to <= |format|
    else exists next: nat :: Covers(hs[0], format, from, next) && next <= to && Tiles(hs[1..], format, next, to)
  }

  lemma {:induction false} TilesAppend(hs: seq<Handler>, h: Handler, format: string, from: nat, mid: nat, to: nat)
    requires Tiles(hs, format, from, mid) && Covers(h, format, mid, to)
    ensures Tiles(hs + [h], format, from, to)
    decreases |hs|
  {
    if hs == [] {
      assert Tiles([], format, to, to);
      assert ([] + [h])[1..] == [];
      assert hs + [h] == [h];
    } else {
      var next: nat :| Covers(hs[0], format, from, next) && next <= mid && Tiles(hs[1..], format, next, mid);
      TilesAppend(hs[1..], h, format, next, mid, to);
      assert (hs + [h])[1..] == hs[1..] + [h];
    }
  }

  lemma {:induction false} CopiedPiece(format: string, from: nat, to: nat, end: nat, text: string -> string)
    requires from <= to <= end <= |format|
    requires forall x :: from <= x < to ==> LeadingToken(format[x..]).None?
    ensures Expansion(format[from..end], text) == format[from..to] + Expansion(format[to..end], text)
    decreases |format| - from
  {
    if from < to {
      LiteralStep(format, from, end, text);
      hide Expansion, LeadingToken;
      CopiedPiece(format, from + 1, to, end, text);
      assert format[from..to] == [format[from]] + format[from + 1..to];
    } else {
      assert format[from..to] == [];
    }
  }

  lemma LiteralStep(format: string, from: nat, end: nat, text: string -> string)
    requires from < end <= |format| && LeadingToken(format[from..]).None?
    ensures Expansion(format[from..end], text) == [format[from]] + Expansion(format[from + 1..end], text)
  {
    LeadingTokenOfPrefix(format[from..], end - from);
    assert format[from..][..end - from] == format[from..end];
    assert format[from..end][1..] == format[from + 1..end];
  }

  lemma OneHandler(h: Handler, format: string, from: nat, to: nat, end: nat, text: string -> string)
    requires Covers(h, format, from, to) && to <= end <= |format|
    ensures Expansion(format[from..end], text) == TextOf(h, format, text) + Expansion(format[to..end], text)
  {
    hide LeadingToken;
    match h {
      case CopyFromFormat(_, _) =>
        CopiedPiece(format, from, to, end, text);
      case ExpandToken(token) =>
        LeadingTokenOfPrefix(format[from..], end - from);
        assert format[from..][..end - from] == format[from..end];
        assert format[from..end][|token| + 2..] == format[to..end];
    }
  }

  /** Running handlers that tile a piece of the format is direct expansion of that piece. */
  lemma {:induction false} RunIsExpansion(hs: seq<Handler>, format: string, from: nat, end: nat, text: string -> string)
    requires Tiles(hs, format, from, end) && end <= |format| && from <= end
    ensures Run(hs, format, text) == Expansion(format[from..end], text)
    decreases |hs|
  {
    if hs == [] {
      assert format[from..end] == [];
    } else {
      var next: nat :| Covers(hs[0], format, from, next) && next <= end && Tiles(hs[1..], format, next, end);
      OneHandler(hs[0], format, from, next, end, text);
      RunIsExpansion(hs[1..], format, next, end, text);
    }
  }

  // ---------- the formatter ----------

  class Formatter {
    const format: string
    var handlers: array<Handler>
    var count: nat

    ghost predicate Valid()
      reads this
    {
      handlers.Length == MAX_HANDLERS && count <= MAX_HANDLERS
    }

    constructor (format: string)
      ensures Valid() && this.format == format && count == 0 && fresh(handlers)
    {
      this.format := format;
      handlers := new Handler[MAX_HANDLERS](_ => CopyFromFormat(0, 0));
      count := 0;
    }

    method AddHandler(h: Handler) returns (ok: bool)
      requires Valid()
      modifies this`count, handlers
      ensures Valid() && (ok <==> old(count) < MAX_HANDLERS)
      ensures handlers[..count] == if ok then old(handlers[..count]) + [h] else old(handlers[..count])
    {
      if count >= MAX_HANDLERS {
        return false;
      }
      handlers[count] := h;
      count := count + 1;
      assert handlers[..count] == old(handlers[..count]) + [h];
      return true;
    }

    /** Compiles the format. The handlers tile all of it, or, when there are too many, a prefix. */
    method ParseFormat() returns (ghost end: nat)
      requires Valid()
      modifies this`count, handlers
      ensures Valid() && end <= |format| && Tiles(handlers[..count], format, 0, end)
      ensures end < |format| ==> count == MAX_HANDLERS
      ensures forall text: string -> string :: Run(handlers[..count], format, text) == Expansion(format[..end], text)
    {
      count := 0;
      var i: nat := 0;
      while i < |format|
        invariant Valid() && i <= |format| && Tiles(handlers[..count], format, 0, i)
        decreases |format| - i
      {
        var h, next := NextHandler(i);
        ghost var hs := handlers[..count];
        TilesAppend(hs, h, format, 0, i, next);
        var ok := AddHandler(h);
        if !ok {
          end := i;
          Meaning(i);
          return;
        }
        i := next;
      }
      end := i;
      Meaning(i);
    }

    lemma Meaning(end: nat)
      requires Valid() && end <= |format| && Tiles(handlers[..count], format, 0, end)
      ensures forall text: string -> string :: Run(handlers[..count], format, text) == Expansion(format[..end], text)
    {
      assert format[0..end] == format[..end];
      forall text: string -> string ensures Run(handlers[..count], format, text) == Expansion(format[..end], text) {
        RunIsExpansion(handlers[..count], format, 0, end, text);
      }
    }

    /** One turn of the parsing loop: the handler for what starts at position i. */
    method NextHandler(i: nat) returns (h: Handler, next: nat)
      requires i < |format|
      ensures Covers(h, format, i, next)
    {
      var rest := format[i..];
      var toOpen := F.FindN(rest, OPEN, |rest|);
      if toOpen != Some(0) {
        next := if toOpen.None? then |format| else i + toOpen.value;
        NoOpenNoToken(i, next);
        return CopyFromFormat(i, next), next;
      }
      var toClose := F.FindN(rest, CLOSE, |rest|);
      FirstCloseIs(rest);
      if toClose.None? {
        NoCloseNoToken(i);
        return CopyFromFormat(i, |format|), |format|;
      }
      var token := rest[1..toClose.value];
      if !IsToken(token) {
        return CopyFromFormat(i, i + 1), i + 1;
      }
      return ExpandToken(token), i + |token| + 2;
    }

    lemma NoOpenNoToken(i: nat, next: nat)
      requires i <= next <= |format| && forall j :: 0 <= j < next - i ==> format[i..][j] != OPEN
      ensures forall x :: i <= x < next ==> LeadingToken(format[x..]).None?
    {
      forall x | i <= x < next ensures LeadingToken(format[x..]).None? {
        assert format[x..][0] == format[i..][x - i];
      }
    }

    lemma NoCloseNoToken(i: nat)
      requires i <= |format| && forall j :: 0 <= j < |format| - i ==> format[i..][j] != CLOSE
      ensures forall x :: i <= x < |format| ==> LeadingToken(format[x..]).None?
    {
      forall x | i <= x < |format| ensures LeadingToken(format[x..]).None? {
        FirstCloseIs(format[x..]);
        assert forall j :: 0 <= j < |format| - x ==> format[x..][j] == format[i..][x - i + j];
      }
    }

    /** Runs the handlers on one message. text gives the text of a token, or None when it cannot be
        produced; granted says whether the allocator serves the i-th handler's request. */
    method FormatMessage(text: string -> Option<string>, out: C.CharArray, granted: nat -> bool) returns (ret: Ret)
      requires Valid() && out.Valid()
      modifies out, out.buffer
      ensures ret in {OK, ERROR}
      ensures ret == OK ==>
                out.Valid() && out.Contents() == old(out.Contents()) + Run(handlers[..count], format, TextOr(text))
      ensures (forall i: nat :: granted(i)) ==>
                (forall h :: h in handlers[..count] && h.ExpandToken? ==> text(h.token).Some?) ==> ret == OK
    {
      hide Run, TextOf;
      var i := 0;
      ghost var hs, before, all := handlers[..count], out.Contents(), Run(handlers[..count], format, TextOr(text));
      assert hs[0..] == hs;
      while i < |handlers[..count]|
        invariant 0 <= i <= count && handlers[..count] == hs && out.Valid()
                    && (out.buffer == old(out.buffer) || fresh(out.buffer))
        invariant out.Contents() + Run(hs[i..], format, TextOr(text)) == before + all
      {
        var h := handlers[i];
        assert h == hs[i] && h in hs;
        RunSplits(hs, i, format, TextOr(text), out.Contents());
        var piece := PieceOf(h, format, text);
        if piece.None? {
          return ERROR;
        }
        ret := out.StrNCat(piece.value, granted(i));
        if ret != OK {
          return ERROR;
        }
        i := i + 1;
      }
      RunOfNone(hs, format, TextOr(text));
      return OK;
    }
  }

  function PieceOf(h: Handler, format: string, text: string -> Option<string>): (piece: Option<string>)
    ensures piece.Some? ==> piece.value == TextOf(h, format, TextOr(text))
    ensures piece.None? ==> h.ExpandToken? && text(h.token).None?
  {
    if h.ExpandToken? then text(h.token) else Some(TextOf(h, format, TextOr(text)))
  }

  lemma RunSplits(hs: seq<Handler>, i: nat, format: string, text: string -> string, before: string)
    requires i < |hs|
    ensures before + Run(hs[i..], format, text) == before + TextOf(hs[i], format, text) + Run(hs[i + 1..], format, text)
  {
    assert hs[i..][1..] == hs[i + 1..];
  }

  lemma RunOfNone(hs: seq<Handler>, format: string, text: string -> string)
    ensures Run(hs[|hs|..], format, text) == []
  {
  }

  function TextOr(text: string -> Option<string>): string -> string
  {
    (token: string) => match text(token) case None => "" case Some(t) => t
  }
}
