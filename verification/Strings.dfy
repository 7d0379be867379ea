/** The splitters of cutil/string2.c. Both push the pieces on the front of a list and then fill an array
    from its end, so that the array is in the order of the string. */
module Strings {
  import opened Sums
  import opened Wrappers
  import CursorList

  // ----- string_split2: a whole delimiter -------------------------------------------------------------

  predicate Occurs(s: string, delim: string, i: nat) {
    i + |delim| <= |s| && s[i..i + |delim|] == delim
  }

  /** strstr from position `from`: the first occurrence. */
  function StrStr(s: string, delim: string, from: nat): (r: Option<nat>)
    requires from <= |s|
    ensures r.Some? ==> from <= r.value && Occurs(s, delim, r.value)
    ensures forall j: nat :: from <= j && Occurs(s, delim, j) ==> r.Some? && r.value <= j
    decreases |s| - from
  {
    if Occurs(s, delim, from) then Some(from)
    else if from == |s| then None
    else StrStr(s, delim, from + 1)
  }

  /** Cut at the first occurrence, then go on behind it. */
  ghost function Pieces(s: string, delim: string): (r: seq<string>)
    requires delim != ""
    ensures r != []
    decreases |s|
  {
    var r := StrStr(s, delim, 0);
    if r.None? then [s] else [s[..r.value]] + Pieces(s[r.value + |delim|..], delim)
  }

  ghost function Join(pieces: seq<string>, delim: string): string {
    if pieces == [] then ""
    else if |pieces| == 1 then pieces[0]
    else pieces[0] + delim + Join(pieces[1..], delim)
  }

  /** A suffix searched from its start, or the whole string from inside. */
  lemma StrStrOfSuffix(s: string, delim: string, from: nat)
    requires from <= |s|
    ensures var r, r' := StrStr(s, delim, from), StrStr(s[from..], delim, 0);
            && (r.None? <==> r'.None?) && (r.Some? ==> r.value == from + r'.value)
  {
    var t := s[from..];
    forall j: nat | j <= |t| ensures Occurs(t, delim, j) <==> Occurs(s, delim, from + j) {
      if j + |delim| <= |t| {
        assert t[j..j + |delim|] == s[from + j..from + j + |delim|];
      }
    }
    var r, r' := StrStr(s, delim, from), StrStr(t, delim, 0);
    if r'.Some? {
      assert Occurs(s, delim, from + r'.value);
    }
    if r.Some? {
      assert Occurs(t, delim, r.value - from);
    }
  }

  /** The loop common to both splitters: element `i` of the list, counted from 1, goes to `s - i`. */
  method FillBackwards(li: CursorList.List<string>) returns (buf: array<string>)
    requires li.Valid() && li.drift == 0
    modifies li`cursor, li`curpos, li`drift
    ensures li.Valid() && fresh(buf) && buf[..] == Reversed(old(li.Contents()))
  {
    hide CursorList.List.Valid, CursorList.List.Contents;
    var s := li.size;
    buf := new string[s];
    ghost var contents := li.Contents();
    for i := 1 to s + 1
      invariant li.Valid() && li.drift == 0 && li.Contents() == contents && li.size == s
      invariant forall j :: s - i < j < s ==> buf[j] == contents[s - 1 - j]
    {
      buf[s - i] := GetInStep(li, i);
    }
  }

  /** list_get at a position of a list whose cursor has not drifted. */
  method GetInStep(li: CursorList.List<string>, i: nat) returns (x: string)
    requires li.Valid() && li.drift == 0 && 1 <= i <= li.size
    modifies li`cursor, li`curpos, li`drift
    ensures li.Valid() && li.drift == 0 && li.Contents() == old(li.Contents()) && li.size == old(li.size)
    ensures x == old(li.Contents()[i - 1])
  {
    var found := li.Get(i);
    x := found.value;
  }

  lemma {:induction false} NextPiece(s: string, delim: string, from: nat, next: nat)
    requires delim != "" && from <= |s| && StrStr(s, delim, from) == Some(next)
    ensures Pieces(s[from..], delim) == [s[from..next]] + Pieces(s[next + |delim|..], delim)
  {
    hide StrStr, Occurs, Pieces;
    StrStrOfSuffix(s, delim, from);
    Cut(s[from..], delim, next - from);
    Slices(s, from, next - from);
    Slices(s, from, next - from + |delim|);
  }

  lemma {:induction false} Cut(s: string, delim: string, k: nat)
    requires delim != "" && StrStr(s, delim, 0) == Some(k)
    ensures k + |delim| <= |s| && Pieces(s, delim) == [s[..k]] + Pieces(s[k + |delim|..], delim)
  {
    hide StrStr, Occurs;
    FoundInside(s, delim, 0, k);
  }

  lemma FoundInside(s: string, delim: string, from: nat, k: nat)
    requires from <= |s| && StrStr(s, delim, from) == Some(k)
    ensures k + |delim| <= |s|
  {
    assert Occurs(s, delim, k);
  }

  lemma Slices(s: string, a: nat, b: nat)
    requires a + b <= |s|
    ensures s[a..][b..] == s[a + b..] && s[a..][..b] == s[a..a + b]
  {
  }

  lemma {:induction false} LastPiece(s: string, delim: string, from: nat)
    requires delim != "" && from <= |s| && StrStr(s, delim, from).None?
    ensures Pieces(s[from..], delim) == [s[from..]]
  {
    StrStrOfSuffix(s, delim, from);
  }

  lemma NothingPushed()
    ensures var none: seq<string> := []; Reversed(none) == none
  {
  }

  /** string_split2. An empty delimiter is excluded: see `EmptyDelimiterStays`. */
  method StringSplit2(str: string, delim: string) returns (buf: array<string>)
    requires delim != ""
    ensures fresh(buf) && buf[..] == Pieces(str, delim)
  {
    hide Pieces, Reversed, CursorList.List.Valid, CursorList.Elements;
    var li := new CursorList.List<string>();
    var ptr := 0;
    NothingPushed();
    var next := StrStr(str, delim, 0);
    assert str[0..] == str;
    while next.Some?
      invariant ptr <= |str| && next == StrStr(str, delim, ptr)
      invariant li.Valid() && li.curpos == 0 && li.drift == 0 && fresh(li) && fresh(li.nodes)
      invariant Reversed(li.Contents()) + Pieces(str[ptr..], delim) == Pieces(str, delim)
      decreases |str| - ptr
    {
      NextPiece(str, delim, ptr, next.value);
      ReversedPrepend(str[ptr..next.value], li.Contents());
      li.Add(str[ptr..next.value]);
      ptr := next.value + |delim|;
      next := StrStr(str, delim, ptr);
    }
    LastPiece(str, delim, ptr);
    ReversedPrepend(str[ptr..], li.Contents());
    li.Add(str[ptr..]);
    buf := FillBackwards(li);
  }

  /** With an empty delimiter the search finds the place it started from, for ever. */
  lemma EmptyDelimiterStays(s: string, from: nat)
    requires from <= |s|
    ensures StrStr(s, "", from) == Some(from)
  {
    assert Occurs(s, "", from);
  }

  /** Nothing is lost: the pieces with the delimiter between them are the string. */
  lemma {:induction false} PiecesJoin(s: string, delim: string)
    requires delim != ""
    ensures Join(Pieces(s, delim), delim) == s
    decreases |s|
  {
    var r := StrStr(s, delim, 0);
    if r.Some? {
      var rest := s[r.value + |delim|..];
      PiecesJoin(rest, delim);
      var pieces := Pieces(s, delim);
      assert pieces[1..] == Pieces(rest, delim);
      assert s == s[..r.value] + s[r.value..r.value + |delim|] + rest;
    }
  }

  lemma {:induction false} NoPieceHasDelimiter(s: string, delim: string, i: nat, j: nat)
    requires delim != "" && i < |Pieces(s, delim)|
    ensures !Occurs(Pieces(s, delim)[i], delim, j)
    decreases |s|
  {
    hide Pieces;
    var r := StrStr(s, delim, 0);
    if r.Some? {
      Cut(s, delim, r.value);
      if i > 0 {
        NoPieceHasDelimiter(s[r.value + |delim|..], delim, i - 1, j);
      } else {
        assert Occurs(s[..r.value], delim, j) ==> Occurs(s, delim, j) by {
          assert j + |delim| <= r.value ==> s[..r.value][j..j + |delim|] == s[j..j + |delim|];
        }
      }
    } else {
      assert s[0..] == s;
      LastPiece(s, delim, 0);
    }
  }

  /** No piece holds the delimiter, not even across the start of the delimiter that follows it. */
  ghost predicate Splittable(pieces: seq<string>, delim: string) {
    && pieces != []
    && (forall i :: 0 <= i < |pieces| - 1 ==> StrStr(pieces[i] + delim, delim, 0) == Some(|pieces[i]|))
    && StrStr(pieces[|pieces| - 1], delim, 0).None?
  }

  lemma FirstOccurrence(p: string, delim: string, rest: string)
    requires delim != ""
    ensures var a, b := StrStr(p + delim, delim, 0), StrStr(p + delim + rest, delim, 0);
            a.Some? && b.Some? && a.value <= |p| && a == b
  {
    assert (p + delim)[|p|..|p| + |delim|] == delim;
    assert Occurs(p + delim, delim, |p|);
    var whole := p + delim + rest;
    forall j: nat | j <= |p| ensures Occurs(p + delim, delim, j) <==> Occurs(whole, delim, j) {
      assert (p + delim)[j..j + |delim|] == whole[j..j + |delim|];
    }
    assert Occurs(whole, delim, |p|);
  }

  lemma {:induction false} SplitOfOne(p: string, delim: string)
    requires delim != ""
    ensures Pieces(p, delim) == [p] <==> StrStr(p, delim, 0).None?
  {
  }

  lemma {:induction false} FirstPiece(p: string, delim: string, rest: string)
    requires delim != ""
    ensures var pieces := Pieces(p + delim + rest, delim);
            if StrStr(p + delim, delim, 0) == Some(|p|) then pieces == [p] + Pieces(rest, delim)
            else pieces[0] != p
  {
    var s := p + delim + rest;
    FirstOccurrence(p, delim, rest);
    var k := StrStr(s, delim, 0).value;
    if k == |p| {
      assert s[..k] == p && s[k + |delim|..] == rest;
    }
  }

  /** Splitting a joined list gives the list back exactly when its pieces can be told apart. */
  lemma {:induction false} SplitOfJoin(pieces: seq<string>, delim: string)
    requires delim != "" && pieces != []
    ensures Pieces(Join(pieces, delim), delim) == pieces <==> Splittable(pieces, delim)
  {
    hide Pieces, StrStr;
    if |pieces| == 1 {
      SplitOfOne(pieces[0], delim);
      assert pieces == [pieces[0]];
    } else {
      SplitOfJoin(pieces[1..], delim);
      FirstPiece(pieces[0], delim, Join(pieces[1..], delim));
      SplittableTail(pieces, delim);
      HeadAndTail(pieces, pieces[0], Pieces(Join(pieces[1..], delim), delim));
      hide Splittable;
    }
  }

  lemma HeadAndTail<T>(s: seq<T>, x: T, t: seq<T>)
    requires s != []
    ensures [x] + t == s <==> x == s[0] && t == s[1..]
  {
    assert s == [s[0]] + s[1..];
    assert ([x] + t)[1..] == t;
  }

  lemma SplittableTail(pieces: seq<string>, delim: string)
    requires |pieces| > 1
    ensures Splittable(pieces, delim)
            <==> StrStr(pieces[0] + delim, delim, 0) == Some(|pieces[0]|) && Splittable(pieces[1..], delim)
  {
    var tail := pieces[1..];
    assert forall i :: 0 < i < |pieces| ==> pieces[i] == tail[i - 1];
    if Splittable(tail, delim) && StrStr(pieces[0] + delim, delim, 0) == Some(|pieces[0]|) {
      forall i | 0 <= i < |pieces| - 1 ensures StrStr(pieces[i] + delim, delim, 0) == Some(|pieces[i]|) {
        if i > 0 {
          assert pieces[i] == tail[i - 1];
        }
      }
    }
    if Splittable(pieces, delim) {
      forall i | 0 <= i < |tail| - 1 ensures StrStr(tail[i] + delim, delim, 0) == Some(|tail[i]|) {
        assert tail[i] == pieces[i + 1];
      }
    }
  }

  // ----- string_split: any of a set of characters -----------------------------------------------------

  /** How many of the first characters are (`among`) or are not delimiters. */
  ghost function Span(s: string, delims: set<char>, among: bool): (n: nat)
    ensures n <= |s|
    ensures forall i :: 0 <= i < n ==> (s[i] in delims <==> among)
    ensures n < |s| ==> (s[n] in delims <==> !among)
  {
    if s != "" && (s[0] in delims <==> among) then 1 + Span(s[1..], delims, among) else 0
  }

  /** The maximal runs of characters that are not delimiters. */
  ghost function Tokens(s: string, delims: set<char>): seq<string>
    decreases |s|
  {
    if s == "" then []
    else if s[0] in delims then Tokens(s[1..], delims)
    else
      var n := Span(s, delims, false);
      [s[..n]] + Tokens(s[n..], delims)
  }

  lemma {:induction false} TokensAfterDelimiters(s: string, delims: set<char>)
    ensures Tokens(s[Span(s, delims, true)..], delims) == Tokens(s, delims)
  {
    if s != "" && s[0] in delims {
      TokensAfterDelimiters(s[1..], delims);
      assert s[1..][Span(s[1..], delims, true)..] == s[Span(s, delims, true)..];
    } else {
      assert s[0..] == s;
    }
  }

  lemma SpanSteps(s: string, delims: set<char>, among: bool, from: nat, to: nat)
    requires from <= to <= |s| && forall i :: from <= i < to ==> (s[i] in delims <==> among)
    ensures Span(s[from..], delims, among) == to - from + Span(s[to..], delims, among)
    decreases |s| - from
  {
    if from < to {
      SpanSteps(s, delims, among, from + 1, to);
      assert s[from..][1..] == s[from + 1..];
    }
  }

  /** strtok_r from position `at`: skip delimiters, then take a token, and step over the delimiter that
      ends it. */
  method StrTok(s: string, delims: set<char>, at: nat) returns (token: Option<string>, next: nat)
    requires at <= |s|
    ensures at <= next <= |s|
    ensures token.None? ==> Tokens(s[at..], delims) == []
    ensures token.Some? ==> at < next && Tokens(s[at..], delims) == [token.value] + Tokens(s[next..], delims)
  {
    var start := at;
    hide Tokens;
    while start < |s| && s[start] in delims
      invariant at <= start <= |s|
      invariant forall i :: at <= i < start ==> s[i] in delims
    {
      start := start + 1;
    }
    SkipDelimiters(s, delims, at, start);
    if start == |s| {
      return None, start;
    }
    next := start;
    while next < |s| && s[next] !in delims
      invariant start <= next <= |s|
      invariant forall i :: start <= i < next ==> s[i] !in delims
    {
      next := next + 1;
    }
    TakeToken(s, delims, start, next);
    token := Some(s[start..next]);
    if next < |s| {
      next := next + 1;
    }
  }

  lemma {:induction false} SkipDelimiters(s: string, delims: set<char>, at: nat, start: nat)
    requires at <= start <= |s| && forall i :: at <= i < start ==> s[i] in delims
    requires start < |s| ==> s[start] !in delims
    ensures Tokens(s[at..], delims) == Tokens(s[start..], delims)
    ensures start == |s| ==> Tokens(s[at..], delims) == []
  {
    hide Tokens;
    SpanSteps(s, delims, true, at, start);
    TokensAfterDelimiters(s[at..], delims);
    Slices(s, at, start - at);
    NoTokens(delims);
    assert start == |s| ==> s[start..] == "";
  }

  lemma NoTokens(delims: set<char>)
    ensures Tokens("", delims) == []
  {
  }

  lemma {:induction false} TakeToken(s: string, delims: set<char>, start: nat, end: nat)
    requires start < end <= |s| && forall i :: start <= i < end ==> s[i] !in delims
    requires end < |s| ==> s[end] in delims
    ensures Tokens(s[start..], delims) == [s[start..end]] + Tokens(s[if end < |s| then end + 1 else end..], delims)
  {
    hide Tokens, Span;
    SpanSteps(s, delims, false, start, end);
    assert end < |s| ==> s[end..][0] in delims;
    NextToken(s[start..], delims, end - start);
    Slices(s, start, end - start);
    if end < |s| {
      SkipOne(s[end..], delims);
      Slices(s, end, 1);
    }
  }

  /** string_split. */
  method StringSplit(str: string, delims: set<char>) returns (buf: array<string>)
    ensures fresh(buf) && buf[..] == Tokens(str, delims)
  {
    hide Tokens, Reversed, CursorList.List.Valid, CursorList.Elements;
    var li := new CursorList.List<string>();
    NothingPushed();
    assert str[0..] == str;
    var token, at := StrTok(str, delims, 0);
    ghost var rest := Tokens(str, delims);
    assert [] + rest == rest;
    while token.Some?
      invariant at <= |str|
      invariant li.Valid() && li.curpos == 0 && li.drift == 0 && fresh(li) && fresh(li.nodes)
      invariant Reversed(li.Contents()) + rest == Tokens(str, delims)
      invariant rest == if token.Some? then [token.value] + Tokens(str[at..], delims) else []
      decreases token.Some?, |str| - at
    {
      ReversedPrepend(token.value, li.Contents());
      Associate(Reversed(li.Contents()), [token.value], Tokens(str[at..], delims));
      li.Add(token.value);
      rest := Tokens(str[at..], delims);
      token, at := StrTok(str, delims, at);
    }
    assert Reversed(li.Contents()) + [] == Reversed(li.Contents());
    buf := FillBackwards(li);
  }

  ghost predicate IsToken(t: string, delims: set<char>) {
    t != "" && forall i :: 0 <= i < |t| ==> t[i] !in delims
  }

  lemma {:induction false} TokensAreTokens(s: string, delims: set<char>, i: nat)
    requires i < |Tokens(s, delims)|
    ensures IsToken(Tokens(s, delims)[i], delims)
    decreases |s|
  {
    if s[0] in delims {
      TokensAreTokens(s[1..], delims, i);
    } else if i > 0 {
      TokensAreTokens(s[Span(s, delims, false)..], delims, i - 1);
    }
  }

  lemma {:induction false} NextToken(s: string, delims: set<char>, n: nat)
    requires s != "" && s[0] !in delims && n == Span(s, delims, false)
    ensures 0 < n && Tokens(s, delims) == [s[..n]] + Tokens(s[n..], delims)
  {
  }

  lemma {:induction false} SkipOne(s: string, delims: set<char>)
    requires s != "" && s[0] in delims
    ensures Tokens(s, delims) == Tokens(s[1..], delims)
  {
  }

  /** The tokens of two strings with a delimiter between them. */
  lemma {:induction false} TokensOfConcat(a: string, c: char, b: string, delims: set<char>)
    requires c in delims
    ensures Tokens(a + [c] + b, delims) == Tokens(a, delims) + Tokens(b, delims)
    decreases |a|
  {
    hide Tokens;
    var s := a + [c] + b;
    if a == "" {
      NoTokens(delims);
      SkipOne(s, delims);
      assert s[1..] == b;
    } else if a[0] in delims {
      SkipOne(s, delims);
      SkipOne(a, delims);
      assert s[1..] == a[1..] + [c] + b;
      TokensOfConcat(a[1..], c, b, delims);
    } else {
      var n := Span(a, delims, false);
      SameSpan(a, c, b, delims);
      NextToken(s, delims, n);
      NextToken(a, delims, n);
      TokensOfConcat(a[n..], c, b, delims);
    }
  }

  lemma {:induction false} SameSpan(a: string, c: char, b: string, delims: set<char>)
    requires c in delims
    ensures var s, n := a + [c] + b, Span(a, delims, false);
            n == Span(s, delims, false) && s[..n] == a[..n] && s[n..] == a[n..] + [c] + b
  {
    var s, n := a + [c] + b, Span(a, delims, false);
    SpanSteps(s, delims, false, 0, n);
    assert s[0..] == s && s[n..] == a[n..] + [c] + b;
    assert s[n..][0] == if n < |a| then a[n] else c;
  }

  lemma OneToken(t: string, delims: set<char>)
    requires IsToken(t, delims)
    ensures Tokens(t, delims) == [t]
  {
    SpanSteps(t, delims, false, 0, |t|);
    assert t[0..] == t && t[|t|..] == "" && t[..|t|] == t;
  }

  /** Path resolution is the inverse of writing a path: the components of "/c1/.../cn" are c1 to cn. */
  lemma {:induction false} ComponentsOfPath(components: seq<string>)
    requires forall i :: 0 <= i < |components| ==> IsToken(components[i], {'/'})
    ensures Tokens("/" + Join(components, "/"), {'/'}) == components
  {
    var path := Join(components, "/");
    assert ("/" + path)[1..] == path;
    if |components| == 1 {
      OneToken(components[0], {'/'});
    } else if |components| > 1 {
      var rest := Join(components[1..], "/");
      assert path == components[0] + ['/'] + rest;
      TokensOfConcat(components[0], '/', rest, {'/'});
      OneToken(components[0], {'/'});
      ComponentsOfPath(components[1..]);
      assert ("/" + rest)[1..] == rest;
      assert components == [components[0]] + components[1..];
    }
  }
}
