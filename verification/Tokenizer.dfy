/** Splitting a command line into words at runs of a delimiter. */
module Tokenizer {

  /** `string::find`: the first position of `d`, or the length where the library says `npos`. */
  function Find(s: string, d: char): (p: nat)
    ensures p <= |s| && d !in s[..p]
    ensures p < |s| ==> s[p] == d
  {
    if s == "" || s[0] == d then 0
    else
      assert s[..1 + Find(s[1..], d)] == [s[0]] + s[1..][..Find(s[1..], d)];
      1 + Find(s[1..], d)
  }

  /** The end of the run of delimiters that `p` lies in. */
  function RunEnd(s: string, d: char, p: nat): (e: nat)
    requires p < |s|
    ensures p < e <= |s| && (e < |s| ==> s[e] != d)
    decreases |s| - p
  {
    if p + 1 < |s| && s[p + 1] == d then RunEnd(s, d, p + 1) else p + 1
  }

  function Tokens(s: string, d: char): (ts: seq<string>)
    ensures |ts| > 0
    decreases |s|
  {
    var p := Find(s, d);
    if p == |s| then [s] else [s[..p]] + Tokens(s[RunEnd(s, d, p)..], d)
  }

  /** The character at `i`; a string is followed by a zero. */
  function CharAt(s: string, i: nat): char
    requires i <= |s|
  {
    if i < |s| then s[i] else '\0'
  }

  method Split(input: string, delim: char) returns (result: seq<string>)
    requires delim != '\0'
    ensures result == Tokens(input, delim)
  {
    result := [];
    var target := input;
    var pos := Find(target, delim);
    while pos != |target|
      invariant pos == Find(target, delim)
      invariant result + Tokens(target, delim) == Tokens(input, delim)
      decreases |target|
    {
      ghost var first := target[..pos];
      ghost var rest := Tokens(target[RunEnd(target, delim, pos)..], delim);
      assert result + ([first] + rest) == result + [first] + rest;
      result := result + [target[..pos]];
      while CharAt(target, pos + 1) == delim
        invariant pos < |target| && RunEnd(target, delim, pos) == RunEnd(target, delim, Find(target, delim))
        decreases |target| - pos
      {
        pos := pos + 1;
      }
      target := target[pos + 1..];
      pos := Find(target, delim);
    }
    result := result + [target];
  }

  function Join(ts: seq<string>, d: char): string
    requires |ts| > 0
  {
    if |ts| == 1 then ts[0] else ts[0] + [d] + Join(ts[1..], d)
  }

  /** Each run of `d` reduced to one. */
  function Collapse(s: string, d: char): string {
    if |s| < 2 then s
    else if s[0] == d && s[1] == d then Collapse(s[1..], d)
    else [s[0]] + Collapse(s[1..], d)
  }

  /** No token contains the delimiter, and only the first and the last may be empty. */
  ghost predicate Clean(ts: seq<string>, d: char) {
    && |ts| > 0
    && (forall i :: 0 <= i < |ts| ==> d !in ts[i])
    && (forall i :: 0 < i < |ts| - 1 ==> ts[i] != "")
  }

  lemma {:induction false} TokensAreClean(s: string, d: char)
    ensures Clean(Tokens(s, d), d)
    ensures s != "" && s[0] != d ==> Tokens(s, d)[0] != ""
    decreases |s|
  {
    var p := Find(s, d);
    if p < |s| {
      var rest := s[RunEnd(s, d, p)..];
      TokensAreClean(rest, d);
      assert forall i :: 0 < i < |Tokens(s, d)| ==> Tokens(s, d)[i] == Tokens(rest, d)[i - 1];
    }
  }

  lemma {:induction false} CollapsePlain(a: string, t: string, d: char)
    requires d !in a
    ensures Collapse(a + t, d) == a + Collapse(t, d)
    decreases |a|
  {
    if a == "" {
      assert a + t == t;
    } else {
      assert (a + t)[1..] == a[1..] + t;
      CollapsePlain(a[1..], t, d);
      assert a + Collapse(t, d) == [a[0]] + (a[1..] + Collapse(t, d));
      if |a + t| < 2 {
        assert t == "" && a[1..] == "";
      }
    }
  }

  lemma {:induction false} CollapseRun(s: string, d: char, p: nat)
    requires p < |s| && s[p] == d
    ensures Collapse(s[p..], d) == [d] + Collapse(s[RunEnd(s, d, p)..], d)
    decreases |s| - p
  {
    assert s[p..][1..] == s[p + 1..];
    if p + 1 < |s| && s[p + 1] == d {
      assert s[p..][1] == d;
      CollapseRun(s, d, p + 1);
    } else if |s[p..]| < 2 {
      assert s[p + 1..] == "";
    } else {
      assert s[p..][1] != d;
      OneAhead(s[p..], d);
    }
  }

  lemma OneAhead(s: string, d: char)
    requires |s| >= 2 && s[0] == d && s[1] != d
    ensures Collapse(s, d) == [d] + Collapse(s[1..], d)
  {
  }

  lemma CollapseAtFind(s: string, d: char)
    requires Find(s, d) < |s|
    ensures var p := Find(s, d);
            Collapse(s, d) == s[..p] + [d] + Collapse(s[RunEnd(s, d, p)..], d)
  {
    var p := Find(s, d);
    var word, tail, rest := s[..p], s[p..], Collapse(s[RunEnd(s, d, p)..], d);
    assert Collapse(s, d) == word + Collapse(tail, d) by {
      CollapsePlain(word, tail, d);
      assert word + tail == s;
    }
    assert Collapse(tail, d) == [d] + rest by {
      CollapseRun(s, d, p);
    }
    Associative(word, [d], rest);
  }

  lemma Associative(a: string, b: string, c: string)
    ensures a + (b + c) == a + b + c
  {
  }

  lemma CollapseNothing(s: string, d: char)
    requires d !in s
    ensures Collapse(s, d) == s
  {
    CollapsePlain(s, "", d);
    assert s + "" == s;
  }

  /** Joining the tokens gives the input with every run of delimiters collapsed. */
  lemma {:induction false} JoinTokens(s: string, d: char)
    ensures Join(Tokens(s, d), d) == Collapse(s, d)
    decreases |s|
  {
    var p := Find(s, d);
    if p == |s| {
      assert s[..p] == s;
      CollapseNothing(s, d);
    } else {
      var rest := s[RunEnd(s, d, p)..];
      JoinTokens(rest, d);
      assert Tokens(s, d)[1..] == Tokens(rest, d);
      CollapseAtFind(s, d);
    }
  }

  lemma {:induction false} FindInJoin(a: string, t: string, d: char)
    requires d !in a
    ensures Find(a + [d] + t, d) == |a|
    decreases |a|
  {
    if a != "" {
      assert (a + [d] + t)[1..] == a[1..] + [d] + t;
      FindInJoin(a[1..], t, d);
    }
  }

  lemma TokensOfPair(a: string, t: string, d: char)
    requires d !in a && (t != "" ==> t[0] != d)
    ensures Tokens(a + [d] + t, d) == [a] + Tokens(t, d)
  {
    var s, p := a + [d] + t, |a|;
    FindInJoin(a, t, d);
    assert s[..p] == a && s[p + 1..] == t;
    assert p + 1 < |s| ==> s[p + 1] == t[0];
    assert RunEnd(s, d, p) == p + 1;
  }

  /** Splitting undoes joining, for every list that splitting could give. */
  lemma {:induction false} TokensOfJoin(ts: seq<string>, d: char)
    requires Clean(ts, d)
    ensures Tokens(Join(ts, d), d) == ts
    decreases |ts|
  {
    if |ts| == 1 {
      assert Find(ts[0], d) == |ts[0]|;
    } else {
      JoinStarts(ts[1..], d);
      TokensOfPair(ts[0], Join(ts[1..], d), d);
      TokensOfJoin(ts[1..], d);
    }
  }

  lemma JoinStarts(ts: seq<string>, d: char)
    requires Clean(ts, d) && (|ts| > 1 ==> ts[0] != "")
    ensures Join(ts, d) != "" ==> Join(ts, d)[0] != d
  {
  }

  /** `Tokens` is the only clean list that joins to the collapsed input. */
  lemma TokensUnique(s: string, d: char, ts: seq<string>)
    requires Clean(ts, d)
    ensures Join(ts, d) == Collapse(s, d) <==> ts == Tokens(s, d)
  {
    TokensAreClean(s, d);
    JoinTokens(s, d);
    TokensOfJoin(ts, d);
    TokensOfJoin(Tokens(s, d), d);
  }

  lemma SplitJoinSplit(s: string, d: char)
    ensures Tokens(Join(Tokens(s, d), d), d) == Tokens(s, d)
  {
    TokensAreClean(s, d);
    TokensOfJoin(Tokens(s, d), d);
  }
}
