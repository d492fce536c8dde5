/** The shell's string helpers: strtok with its in-place NULs, and strcmp (src/user-shell.c, src/stdlib/string.c). */
module Tokenizer {
  import opened Bytes

  /** The first NUL at or after p, |s| when there is none. */
  function Nul(s: seq<byte>, p: nat): (e: nat)
    requires p <= |s|
    ensures p <= e <= |s|
    ensures e < |s| ==> s[e] == 0
    ensures forall k :: p <= k < e ==> s[k] != 0
    decreases |s| - p
  {
    if p == |s| || s[p] == 0 then p else Nul(s, p + 1)
  }

  /** The C string that starts at p. */
  function CString(s: seq<byte>, p: nat): (t: seq<byte>)
    requires p <= |s|
    ensures 0 !in t
  {
    s[p..Nul(s, p)]
  }

  // ---------- runs of characters between delimiters ----------

  /** The first position from p on that is no delimiter, e when there is none. */
  function Skip(s: seq<byte>, d: seq<byte>, p: nat, e: nat): (a: nat)
    requires p <= e <= |s|
    ensures p <= a <= e
    ensures forall k :: p <= k < a ==> s[k] in d
    ensures a < e ==> s[a] !in d
    decreases e - p
  {
    if p == e || s[p] !in d then p else Skip(s, d, p + 1, e)
  }

  /** The first position from p on that is a delimiter, e when there is none. */
  function Stop(s: seq<byte>, d: seq<byte>, p: nat, e: nat): (b: nat)
    requires p <= e <= |s|
    ensures p <= b <= e
    ensures forall k :: p <= k < b ==> s[k] !in d
    ensures b < e ==> s[b] in d
    decreases e - p
  {
    if p == e || s[p] in d then p else Stop(s, d, p + 1, e)
  }

  datatype Span = Span(from: nat, to: nat)

  /** The tokens between p and e, in order. */
  function Spans(s: seq<byte>, d: seq<byte>, p: nat, e: nat): seq<Span>
    requires p <= e <= |s|
    decreases e - p
  {
    var a := Skip(s, d, p, e);
    if a == e then []
    else
      var b := Stop(s, d, a, e);
      [Span(a, b)] + (if b < e then Spans(s, d, b + 1, e) else [])
  }

  /** The definition of Spans, one step. */
  lemma SpansStep(s: seq<byte>, d: seq<byte>, p: nat, e: nat)
    requires p <= e <= |s|
    ensures var a := Skip(s, d, p, e);
      var b := Stop(s, d, a, e);
      Spans(s, d, p, e) ==
        if a == e then [] else if b < e then [Span(a, b)] + Spans(s, d, b + 1, e) else [Span(a, b)]
  {
  }

  /** Tokens are the maximal stretches without a delimiter, from left to right. */
  lemma {:induction false} SpansAreMaximal(s: seq<byte>, d: seq<byte>, p: nat, e: nat, i: nat)
    requires p <= e <= |s| && i < |Spans(s, d, p, e)|
    ensures var t := Spans(s, d, p, e)[i];
      && p <= t.from < t.to <= e
      && (forall k :: t.from <= k < t.to ==> s[k] !in d)
      && (t.from == p || s[t.from - 1] in d)
      && (t.to == e || s[t.to] in d)
      && (i > 0 ==> Spans(s, d, p, e)[i - 1].to < t.from)
    decreases i
  {
    hide Skip, Stop, Spans;
    SpansStep(s, d, p, e);
    var a := Skip(s, d, p, e);
    var b := Stop(s, d, a, e);
    if i > 0 {
      SpansAreMaximal(s, d, b + 1, e, i - 1);
    }
  }

  /** Nothing that is no delimiter is left out. */
  lemma {:induction false} SpansCover(s: seq<byte>, d: seq<byte>, p: nat, e: nat, k: nat) returns (i: nat)
    requires p <= k < e <= |s| && s[k] !in d
    ensures i < |Spans(s, d, p, e)| && Spans(s, d, p, e)[i].from <= k < Spans(s, d, p, e)[i].to
    decreases e - p
  {
    hide Skip, Stop, Spans;
    SpansStep(s, d, p, e);
    var a := Skip(s, d, p, e);
    var b := Stop(s, d, a, e);
    if k < b {
      i := 0;
    } else {
      var j := SpansCover(s, d, b + 1, e, k);
      i := j + 1;
    }
  }

  /** Only the text from p to e decides about its tokens. */
  lemma {:induction false} SpansFrame(s: seq<byte>, t: seq<byte>, d: seq<byte>, p: nat, e: nat)
    requires p <= e <= |s| && |t| == |s| && forall k :: p <= k < e ==> t[k] == s[k]
    ensures Spans(t, d, p, e) == Spans(s, d, p, e)
    decreases e - p
  {
    hide Skip, Stop, Spans;
    SpansStep(s, d, p, e);
    SkipFrame(s, t, d, p, e);
    var a := Skip(s, d, p, e);
    if a < e {
      StopFrame(s, t, d, a, e);
      var b := Stop(s, d, a, e);
      if b < e { SpansFrame(s, t, d, b + 1, e); }
    }
    SpansStep(t, d, p, e);
  }

  lemma {:induction false} SkipFrame(s: seq<byte>, t: seq<byte>, d: seq<byte>, p: nat, e: nat)
    requires p <= e <= |s| && |t| == |s| && forall k :: p <= k < e ==> t[k] == s[k]
    ensures Skip(t, d, p, e) == Skip(s, d, p, e)
    decreases e - p
  {
    if p < e { SkipFrame(s, t, d, p + 1, e); }
  }

  lemma {:induction false} StopFrame(s: seq<byte>, t: seq<byte>, d: seq<byte>, p: nat, e: nat)
    requires p <= e <= |s| && |t| == |s| && forall k :: p <= k < e ==> t[k] == s[k]
    ensures Stop(t, d, p, e) == Stop(s, d, p, e)
    decreases e - p
  {
    if p < e { StopFrame(s, t, d, p + 1, e); }
  }

  // ---------- in place ----------

  const NONE := -1   // a null pointer; positions in the buffer stand for the others

  method CustomStrchr(str: array<byte>, c: byte) returns (at: int)
    requires Nul(str[..], 0) < str.Length
    ensures at != NONE <==> c in CString(str[..], 0)
    ensures at != NONE ==> 0 <= at < Nul(str[..], 0) && str[at] == c
  {
    var i := 0;
    while str[i] != 0
      invariant 0 <= i <= Nul(str[..], 0) && c !in str[..i]
      decreases Nul(str[..], 0) - i
    {
      if str[i] == c { return i; }
      i := i + 1;
    }
    return NONE;
  }

  class Tokens {
    var nextToken: int

    constructor ()
      ensures nextToken == NONE
    {
      nextToken := NONE;
    }

    /** One call of strtok. The token returned ends at the delimiter that is overwritten, or at the end e. */
    method Strtok(buf: array<byte>, str: int, delim: array<byte>, ghost e: nat) returns (token: int)
      requires buf != delim && Nul(delim[..], 0) < delim.Length && e < buf.Length
      requires var p := if str == NONE then nextToken else str;
        p == NONE || (0 <= p <= e && Nul(buf[..], p) == e)
      modifies this, buf
      ensures var p := old(if str == NONE then nextToken else str);
        var s, d := old(buf[..]), CString(delim[..], 0);
        if p == NONE || Skip(s, d, p, e) == e then
          token == NONE && nextToken == NONE && buf[..] == s
        else
          var a := Skip(s, d, p, e);
          var b := Stop(s, d, a, e);
          && token == a
          && nextToken == (if b < e then b + 1 else NONE)
          && buf[..] == (if b < e then s[b := 0] else s)
    {
      ghost var s, d := buf[..], CString(delim[..], 0);
      var at := str;
      if at == NONE {
        at := nextToken;
        if at == NONE { return NONE; }
      }
      ghost var p := at;
      while buf[at] != 0
        invariant p <= at <= e && buf[..] == s && Skip(s, d, p, e) == Skip(s, d, at, e)
        decreases e - at
      {
        var hit := CustomStrchr(delim, buf[at]);
        if hit == NONE { break; }
        at := at + 1;
      }
      if buf[at] == 0 {
        nextToken := NONE;
        return NONE;
      }
      token := at;
      while buf[at] != 0
        invariant token <= at <= e && buf[..] == s && Stop(s, d, token, e) == Stop(s, d, at, e)
        decreases e - at
      {
        var hit := CustomStrchr(delim, buf[at]);
        if hit != NONE { break; }
        at := at + 1;
      }
      if buf[at] != 0 {
        buf[at] := 0;
        nextToken := at + 1;
      } else {
        nextToken := NONE;
      }
    }
  }

  // ---------- the whole loop ----------

  /** The buffer after all its tokens have been taken: a NUL in place of the delimiter behind each. */
  function Cut(s: seq<byte>, d: seq<byte>, p: nat, e: nat): (t: seq<byte>)
    requires p <= e < |s|
    ensures |t| == |s|
    decreases e - p
  {
    var a := Skip(s, d, p, e);
    var b := Stop(s, d, a, e);
    if a == e || b == e then s else Cut(s[b := 0], d, b + 1, e)
  }

  /** Every token reads as it did in the text, although the text around it has been cut up. */
  ghost predicate TokensIntact(s: seq<byte>, t: seq<byte>, ts: seq<Span>) {
    |t| == |s| && forall i :: 0 <= i < |ts| ==>
      ts[i].from <= ts[i].to < |s| && t[ts[i].from..ts[i].to] == s[ts[i].from..ts[i].to] && t[ts[i].to] == 0
  }

  /** Cutting at or behind p leaves everything before p, and the end. */
  lemma {:induction false} CutLeaves(s: seq<byte>, d: seq<byte>, p: nat, e: nat)
    requires p <= e < |s| && s[e] == 0
    ensures forall k :: (0 <= k < p || e <= k < |s|) ==> Cut(s, d, p, e)[k] == s[k]
    decreases e - p
  {
    hide Skip, Stop;
    var a := Skip(s, d, p, e);
    var b := Stop(s, d, a, e);
    if a < e && b < e { CutLeaves(s[b := 0], d, b + 1, e); }
  }

  /** The NULs written in place never damage a token: each reads as it did and is NUL-terminated. */
  lemma {:induction false} CutKeepsTokens(s: seq<byte>, d: seq<byte>, p: nat, e: nat)
    requires p <= e < |s| && s[e] == 0
    ensures TokensIntact(s, Cut(s, d, p, e), Spans(s, d, p, e))
    decreases e - p
  {
    hide Skip, Stop, Spans;
    SpansStep(s, d, p, e);
    var a := Skip(s, d, p, e);
    var b := Stop(s, d, a, e);
    if a < e && b < e {
      var u := s[b := 0];
      var t, ts := Cut(s, d, p, e), Spans(s, d, b + 1, e);
      SpansFrame(s, u, d, b + 1, e);
      CutKeepsTokens(u, d, b + 1, e);
      CutLeaves(u, d, b + 1, e);
      assert t[a..b] == s[a..b];
      forall i | 0 <= i < |ts|
        ensures t[ts[i].from..ts[i].to] == s[ts[i].from..ts[i].to]
      {
        SpansAreMaximal(s, d, b + 1, e, i);
        assert u[ts[i].from..ts[i].to] == s[ts[i].from..ts[i].to];
      }
    }
  }

  function RestSpans(s: seq<byte>, d: seq<byte>, next: int, e: nat): seq<Span>
    requires next == NONE || 0 <= next <= e < |s|
  {
    if next == NONE then [] else Spans(s, d, next, e)
  }

  function RestCut(s: seq<byte>, d: seq<byte>, next: int, e: nat): seq<byte>
    requires next == NONE || 0 <= next <= e < |s|
  {
    if next == NONE then s else Cut(s, d, next, e)
  }

  /** The position of the next call still leads to the end of the text. */
  predicate LeadsTo(s: seq<byte>, next: int, e: nat) {
    next == NONE || (0 <= next <= e < |s| && Nul(s, next) == e)
  }

  lemma {:induction false} NulFrame(s: seq<byte>, t: seq<byte>, p: nat, q: nat)
    requires p <= q <= |s| && |t| == |s| && q <= Nul(s, p) && forall k :: q <= k < |s| ==> t[k] == s[k]
    ensures Nul(t, q) == Nul(s, p)
    decreases |s| - p
  {
    if p < q { NulFrame(s, t, p + 1, q); } else if p < |s| && s[p] != 0 { NulFrame(s, t, p + 1, p + 1); }
  }

  /** One call of strtok, on values: it takes the first span and leaves the rest. */
  lemma OneCall(s: seq<byte>, d: seq<byte>, p: nat, e: nat)
    requires p <= e < |s| && Nul(s, p) == e
    ensures var a := Skip(s, d, p, e);
      var b := Stop(s, d, a, e);
      a < e ==>
        var next := if b < e then b + 1 else NONE;
        var t := if b < e then s[b := 0] else s;
        && Spans(s, d, p, e) == [Span(a, b)] + RestSpans(t, d, next, e)
        && Cut(s, d, p, e) == RestCut(t, d, next, e)
        && LeadsTo(t, next, e)
    ensures Skip(s, d, p, e) == e ==> Spans(s, d, p, e) == [] && Cut(s, d, p, e) == s
  {
    hide Skip, Stop, Nul;
    var a := Skip(s, d, p, e);
    var b := Stop(s, d, a, e);
    if a < e && b < e {
      SpansFrame(s, s[b := 0], d, b + 1, e);
      NulFrame(s, s[b := 0], p, b + 1);
    }
  }

  /** A call of strtok from the kept position: the state moves on by one span. */
  method NextToken(tokens: Tokens, buf: array<byte>, str: int, delim: array<byte>, ghost e: nat)
    returns (token: int, ghost x: Span)
    requires buf != delim && Nul(delim[..], 0) < delim.Length && e < buf.Length
    requires var p := if str == NONE then tokens.nextToken else str; LeadsTo(buf[..], p, e)
    modifies tokens, buf
    ensures LeadsTo(buf[..], tokens.nextToken, e) && buf.Length == |old(buf[..])|
    ensures var p := old(if str == NONE then tokens.nextToken else str);
      var s, d := old(buf[..]), CString(delim[..], 0);
      && RestCut(s, d, p, e) == RestCut(buf[..], d, tokens.nextToken, e)
      && (if token == NONE then RestSpans(s, d, p, e) == [] && tokens.nextToken == NONE && buf[..] == s
          else token == x.from && RestSpans(s, d, p, e) == [x] + RestSpans(buf[..], d, tokens.nextToken, e))
    ensures token != NONE && tokens.nextToken != NONE ==> x.to < tokens.nextToken
  {
    hide Skip, Stop, Nul, Spans, Cut;
    ghost var s, d, p := buf[..], CString(delim[..], 0), if str == NONE then tokens.nextToken else str;
    x := Span(0, 0);
    if p != NONE {
      OneCall(s, d, p, e);
      x := Span(Skip(s, d, p, e), Stop(s, d, Skip(s, d, p, e), e));
    }
    token := tokens.Strtok(buf, str, delim, e);
  }

  /** Before the rest of the cutting the tokens in front of it are intact already. */
  lemma IntactSoFar(s: seq<byte>, t: seq<byte>, d: seq<byte>, next: int, e: nat, ts: seq<Span>)
    requires LeadsTo(t, next, e) && TokensIntact(s, RestCut(t, d, next, e), ts)
    requires next != NONE ==> forall i :: 0 <= i < |ts| ==> ts[i].to < next
    ensures TokensIntact(s, t, ts)
  {
    hide Cut, Nul;
    if next != NONE {
      var u := Cut(t, d, next, e);
      CutLeaves(t, d, next, e);
      forall i | 0 <= i < |ts|
        ensures t[ts[i].from..ts[i].to] == s[ts[i].from..ts[i].to] && t[ts[i].to] == 0
      {
        assert t[ts[i].from..ts[i].to] == u[ts[i].from..ts[i].to];
      }
    }
  }

  lemma IntactPart(s: seq<byte>, t: seq<byte>, ts: seq<Span>, k: nat)
    requires k <= |ts| && TokensIntact(s, t, ts)
    ensures TokensIntact(s, t, ts[..k])
  {
  }

  /** The spans before the one at k end in front of it. */
  lemma SpansAscend(s: seq<byte>, d: seq<byte>, e: nat, k: nat)
    requires e <= |s| && k < |Spans(s, d, 0, e)|
    ensures var ts := Spans(s, d, 0, e);
      ts[k].from < ts[k].to && forall i :: 0 <= i < k ==> ts[i].to < ts[k].from
    decreases k
  {
    hide Spans;
    SpansAreMaximal(s, d, 0, e, k);
    if k > 0 { SpansAscend(s, d, e, k - 1); }
  }

  /** The shell's loop: strtok with the buffer, then with NULL until it answers NULL or there are as many arguments as
      allowed. It returns exactly the first tokens of the text, in order, each readable where it starts; after all of
      them the buffer is cut up completely. */
  method Tokenize(buf: array<byte>, delim: array<byte>, limit: nat) returns (starts: seq<nat>)
    requires buf != delim && Nul(buf[..], 0) < buf.Length && Nul(delim[..], 0) < delim.Length
    modifies buf
    ensures var s, d, e := old(buf[..]), CString(delim[..], 0), Nul(old(buf[..]), 0);
      var ts := Spans(s, d, 0, e);
      && |starts| == (if |ts| < limit then |ts| else limit)
      && (forall i :: 0 <= i < |starts| ==> starts[i] == ts[i].from)
      && TokensIntact(s, buf[..], ts[..|starts|])
      && (|ts| <= limit ==> buf[..] == Cut(s, d, 0, e))
  {
    hide Spans, Cut, TokensIntact, Nul, RestCut, RestSpans;
    ghost var s, d, e := buf[..], CString(delim[..], 0), Nul(buf[..], 0);
    ghost var ts: seq<Span> := [];
    var tokens := new Tokens();
    starts := [];
    CutKeepsTokens(s, d, 0, e);
    RestFromStart(s, d, e);
    var token, x := NextToken(tokens, buf, 0, delim, e);
    while token != NONE && |starts| < limit
      invariant fresh(tokens) && delim[..] == old(delim[..]) && LeadsTo(buf[..], tokens.nextToken, e)
      invariant buf.Length == |s| && RestCut(buf[..], d, tokens.nextToken, e) == Cut(s, d, 0, e)
      invariant |starts| == |ts| <= limit && forall i :: 0 <= i < |ts| ==> starts[i] == ts[i].from
      invariant token == NONE ==> tokens.nextToken == NONE && Spans(s, d, 0, e) == ts
      invariant token != NONE ==>
        token == x.from && Spans(s, d, 0, e) == ts + [x] + RestSpans(buf[..], d, tokens.nextToken, e)
      invariant token != NONE && tokens.nextToken != NONE ==> x.to < tokens.nextToken
      decreases limit - |starts|
    {
      starts := starts + [token];
      ts := ts + [x];
      token, x := NextToken(tokens, buf, NONE, delim, e);
    }
    ghost var all := Spans(s, d, 0, e);
    if token != NONE { SpansAscend(s, d, e, |ts|); }
    assert all[..|ts|] == ts;
    IntactPart(s, Cut(s, d, 0, e), all, |ts|);
    IntactSoFar(s, buf[..], d, tokens.nextToken, e, ts);
    RestOfNone(buf[..], d, e);
  }

  lemma RestFromStart(s: seq<byte>, d: seq<byte>, e: nat)
    requires Nul(s, 0) == e < |s|
    ensures LeadsTo(s, 0, e) && RestSpans(s, d, 0, e) == Spans(s, d, 0, e) && RestCut(s, d, 0, e) == Cut(s, d, 0, e)
  {
  }

  lemma RestOfNone(t: seq<byte>, d: seq<byte>, e: nat)
    ensures RestSpans(t, d, NONE, e) == [] && RestCut(t, d, NONE, e) == t
  {
  }

  // ---------- strcmp ----------

  lemma NulAt(s: seq<byte>, e: nat)
    requires e < |s| && s[e] == 0 && forall k :: 0 <= k < e ==> s[k] != 0
    ensures Nul(s, 0) == e && CString(s, 0) == s[..e]
  {
    assert !(Nul(s, 0) < e) && !(Nul(s, 0) > e);
  }

  /** custom_strcpy: the string and its NUL over the front of dest, the rest as it was. */
  method CustomStrcpy(dest: array<byte>, src: array<byte>)
    requires dest != src && Nul(src[..], 0) < src.Length && Nul(src[..], 0) < dest.Length
    modifies dest
    ensures dest[..] == CString(src[..], 0) + [0] + old(dest[..])[Nul(src[..], 0) + 1..]
    ensures Nul(dest[..], 0) == Nul(src[..], 0) && CString(dest[..], 0) == CString(src[..], 0)
  {
    var i := 0;
    ghost var n := Nul(src[..], 0);
    while src[i] != 0
      invariant 0 <= i <= n
      invariant forall k :: 0 <= k < i ==> dest[k] == src[k]
      invariant forall k :: i <= k < dest.Length ==> dest[k] == old(dest[k])
      decreases n - i
    {
      dest[i] := src[i];
      i := i + 1;
    }
    dest[i] := 0;
    NulAt(dest[..], n);
    assert dest[..] == src[..n] + [0] + old(dest[..])[n + 1..];
  }

  /** Where strcmp of src/stdlib/string.c:54-68 starts to look for the end of the first string: it steps over the
      terminators of two empty strings. */
  function CompareFrom(a: seq<byte>, b: seq<byte>): nat
    requires a != [] && b != []
  {
    if a[0] == 0 && b[0] == 0 then 1 else 0
  }

  /** strcmp: it stops as soon as the first string ends, so any beginning of the second one compares equal. */
  method Strcmp(s1: array<byte>, s2: array<byte>) returns (r: int)
    requires s1.Length > 0 && s2.Length > 0
    requires var p := CompareFrom(s1[..], s2[..]);
      && p <= s1.Length && Nul(s1[..], p) < s1.Length
      && p <= s2.Length && Nul(s2[..], p) < s2.Length
    ensures var p := CompareFrom(s1[..], s2[..]);
      r == 0 <==> (p == 1 || s1[0] != 0) && CString(s1[..], p) <= CString(s2[..], p)
  {
    var i := 0;
    ghost var p := CompareFrom(s1[..], s2[..]);
    ghost var a, b := CString(s1[..], p), CString(s2[..], p);
    while true
      invariant 0 <= i <= p + |a| && i <= p + |b| && (i > p ==> i < p + |a|) && (i == 1 && p == 1 ==> s1[1] != 0)
      invariant i >= p ==> a[..i - p] == b[..i - p]
      decreases s1.Length - i
    {
      if s1[i] != s2[i] {
        assert p <= i < p + |a| && i < p + |b| ==> a[i - p] != b[i - p];
        return s1[i] as int - s2[i] as int;
      }
      if i >= p {
        assert i < p + |a| && i < p + |b|;
        assert a[..i + 1 - p] == a[..i - p] + [a[i - p]] && b[..i + 1 - p] == b[..i - p] + [b[i - p]];
      }
      i := i + 1;
      if s1[i] == 0 { break; }
    }
    assert a[..|a|] == a;
    return 0;
  }
}
