/**
 Subjects, patterns and the order in which a subject's patterns are matched (util/sublist.go, util/util.go).

 A subject is a list of tokens separated by dots. A pattern may have `*`, which stands for one token, and may end with
 `>`, which stands for one or more tokens.
 */
module Subjects {

  // ---------- Tokens ----------

  const SEP: char := '.'

  /** Position of the first separator, or the length if there is none. */
  function FirstSep(s: string): (i: nat)
    ensures i <= |s| && (i < |s| ==> s[i] == SEP) && forall j :: 0 <= j < i ==> s[j] != SEP
  {
    if s == [] || s[0] == SEP then 0 else 1 + FirstSep(s[1..])
  }

  function Split(s: string): (r: seq<string>)
    ensures r != []
    decreases |s|
  {
    var i := FirstSep(s);
    if i == |s| then [s] else [s[..i]] + Split(s[i + 1..])
  }

  /** The tokens from `start` on, if no separator is found before `i`. */
  function SplitFrom(s: string, start: nat, i: nat): seq<string>
    requires start <= i <= |s|
    decreases |s| - i
  {
    if i == |s| then [s[start..]]
    else if s[i] == SEP then [s[start..i]] + SplitFrom(s, i + 1, i + 1)
    else SplitFrom(s, start, i + 1)
  }

  /** The loop by which every operation of the sublist cuts a subject into tokens. */
  method Tokenize(subject: string) returns (tokens: seq<string>)
    ensures tokens == Split(subject)
  {
    tokens := [];
    var start := 0;
    for i := 0 to |subject|
      invariant 0 <= start <= i
      invariant tokens + SplitFrom(subject, start, i) == SplitFrom(subject, 0, 0)
    {
      if subject[i] == SEP {
        Shifted(tokens, SplitFrom(subject, start, i));
        tokens := tokens + [subject[start..i]];
        start := i + 1;
      }
    }
    tokens := tokens + [subject[start..]];
    SplitFromIs(subject, 0, 0);
    assert subject[0..] == subject;
  }

  predicate NoSep(s: string, from: nat, to: nat)
    requires from <= to <= |s|
  {
    forall j :: from <= j < to ==> s[j] != SEP
  }

  lemma {:induction false} SplitFromIs(s: string, start: nat, i: nat)
    requires start <= i <= |s| && NoSep(s, start, i)
    ensures SplitFrom(s, start, i) == Split(s[start..])
    decreases |s| - i
  {
    if i == |s| {
      SplitLast(s, start);
    } else if s[i] == SEP {
      SplitFromIs(s, i + 1, i + 1);
      SplitAt(s, start, i);
    } else {
      SplitFromIs(s, start, i + 1);
    }
  }

  /** The first token of what is left of a subject. */
  lemma SplitAt(subject: string, start: nat, i: nat)
    requires start <= i < |subject| && subject[i] == SEP && NoSep(subject, start, i)
    ensures Split(subject[start..]) == [subject[start..i]] + Split(subject[i + 1..])
  {
    var rest := subject[start..];
    FirstSepIs(rest, i - start);
    assert rest[..i - start] == subject[start..i];
    assert rest[i - start + 1..] == subject[i + 1..];
  }

  lemma SplitLast(subject: string, start: nat)
    requires start <= |subject| && NoSep(subject, start, |subject|)
    ensures Split(subject[start..]) == [subject[start..]]
  {
    FirstSepIs(subject[start..], |subject| - start);
  }

  lemma Shifted(a: seq<string>, b: seq<string>)
    requires b != []
    ensures a + [b[0]] + b[1..] == a + b
  {
  }

  lemma {:induction false} FirstSepIs(s: string, i: nat)
    requires i <= |s| && (i < |s| ==> s[i] == SEP) && forall j :: 0 <= j < i ==> s[j] != SEP
    ensures FirstSep(s) == i
  {
    if i > 0 {
      FirstSepIs(s[1..], i - 1);
    }
  }

  // ---------- Patterns ----------

  /** A token of a pattern. */
  datatype Tok = Pwc | Fwc | Lit(t: string)

  type Pattern = seq<Tok>

  /** The kind of a token is told by its first character. */
  function Kind(t: string): Tok
    requires t != ""
  {
    if t[0] == '*' then Pwc else if t[0] == '>' then Fwc else Lit(t)
  }

  /** The pattern matches the tokens one by one. */
  predicate Matches(p: Pattern, toks: seq<string>) {
    if p == [] || toks == [] then p == [] && toks == []
    else match p[0]
      case Fwc => |p| == 1
      case Pwc => Matches(p[1..], toks[1..])
      case Lit(t) => t == toks[0] && Matches(p[1..], toks[1..])
  }

  /** `>` comes only last. */
  predicate WellFormed(p: Pattern) {
    p != [] && (p[0] == Fwc ==> |p| == 1) && (|p| > 1 ==> WellFormed(p[1..]))
  }

  function Prefixed(tok: Tok, ps: seq<Pattern>): (r: seq<Pattern>)
    ensures |r| == |ps| && forall i :: 0 <= i < |ps| ==> r[i] == [tok] + ps[i]
  {
    seq(|ps|, i requires 0 <= i < |ps| => [tok] + ps[i])
  }

  /** All patterns that match the tokens, in the order in which the trie is searched. */
  function Patterns(toks: seq<string>): seq<Pattern> {
    if toks == [] then []
    else if |toks| == 1 then [[Fwc], [Pwc], [Lit(toks[0])]]
    else [[Fwc]] + Prefixed(Pwc, Patterns(toks[1..])) + Prefixed(Lit(toks[0]), Patterns(toks[1..]))
  }

  /** The search goes through exactly the patterns that match. */
  lemma {:induction false} PatternsAreMatches(toks: seq<string>, p: Pattern)
    requires toks != []
    ensures p in Patterns(toks) <==> Matches(p, toks)
    decreases |toks|
  {
    if |toks| == 1 {
      assert toks[1..] == [] && Patterns(toks)[0] == [Fwc] && Patterns(toks)[1] == [Pwc]
        && Patterns(toks)[2] == [Lit(toks[0])];
      if p != [] && p[1..] == [] {
        assert p == [p[0]];
      }
    } else {
      var sub := Patterns(toks[1..]);
      var ps, qs := Prefixed(Pwc, sub), Prefixed(Lit(toks[0]), sub);
      if p != [] {
        PatternsAreMatches(toks[1..], p[1..]);
        PrefixedHas(Pwc, sub, p);
        PrefixedHas(Lit(toks[0]), sub, p);
      } else {
        assert p !in ps && p !in qs;
      }
      assert p in Patterns(toks) <==> p == [Fwc] || p in ps || p in qs;
    }
  }

  lemma PrefixedHas(tok: Tok, ps: seq<Pattern>, p: Pattern)
    requires p != []
    ensures p in Prefixed(tok, ps) <==> p[0] == tok && p[1..] in ps
  {
    var r := Prefixed(tok, ps);
    if p in r {
      var i :| 0 <= i < |r| && r[i] == p;
      assert p[1..] == ps[i];
    }
    if p[0] == tok && p[1..] in ps {
      var i :| 0 <= i < |ps| && ps[i] == p[1..];
      assert r[i] == p;
    }
  }

  // ---------- From the widest to the narrowest ----------

  /** Token by token, `p` leaves at least as much open as `q`. */
  predicate Covers(p: Pattern, q: Pattern) {
    if p == [] || q == [] then p == [] && q == []
    else match p[0]
      case Fwc => |p| == 1
      case Pwc => q[0] != Fwc && Covers(p[1..], q[1..])
      case Lit(_) => q[0] == p[0] && Covers(p[1..], q[1..])
  }

  /** A later pattern of the search is never wider than, or the same as, an earlier one. */
  lemma {:induction false} WidestFirst(toks: seq<string>, i: nat, j: nat)
    requires i < j < |Patterns(toks)|
    ensures !Covers(Patterns(toks)[j], Patterns(toks)[i])
    decreases |toks|
  {
    if |toks| > 1 {
      var sub := Patterns(toks[1..]);
      var n := |sub|;
      if 1 <= i < j <= n {
        WidestFirst(toks[1..], i - 1, j - 1);
        CoversRest(Pwc, sub[j - 1], sub[i - 1]);
      } else if n < i {
        WidestFirst(toks[1..], i - 1 - n, j - 1 - n);
        CoversRest(Lit(toks[0]), sub[j - 1 - n], sub[i - 1 - n]);
      }
    }
  }

  lemma CoversRest(tok: Tok, p: Pattern, q: Pattern)
    requires tok != Fwc
    ensures Covers([tok] + p, [tok] + q) == Covers(p, q)
  {
    assert ([tok] + p)[1..] == p && ([tok] + q)[1..] == q;
  }

  /** Covering is what it should be: all subjects of the one are subjects of the other. */
  lemma {:induction false} CoversIsWider(p: Pattern, q: Pattern)
    requires WellFormed(p) && WellFormed(q)
    ensures Covers(p, q) <==> forall toks :: Matches(q, toks) ==> Matches(p, toks)
  {
    if Covers(p, q) {
      forall toks | Matches(q, toks)
        ensures Matches(p, toks)
      {
        CoversMatches(p, q, toks);
      }
    } else {
      var toks := Witness(p, q);
      assert Matches(q, toks) && !Matches(p, toks);
    }
  }

  lemma {:induction false} CoversMatches(p: Pattern, q: Pattern, toks: seq<string>)
    requires WellFormed(p) && Covers(p, q) && Matches(q, toks)
    ensures Matches(p, toks)
    decreases |p|
  {
    if p[0] != Fwc && |p| > 1 {
      CoversMatches(p[1..], q[1..], toks[1..]);
    }
  }

  /** Any subject of a pattern. */
  function Sample(q: Pattern): (toks: seq<string>)
    requires q == [] || WellFormed(q)
    ensures Matches(q, toks)
  {
    if q == [] then []
    else
      var rest := if |q| == 1 then [] else Sample(q[1..]);
      var toks := [if q[0].Lit? then q[0].t else "x"] + rest;
      assert toks[1..] == rest;
      toks
  }

  /** A subject of `q` that is not one of `p`, when `p` does not cover `q`. */
  lemma {:induction false} Witness(p: Pattern, q: Pattern) returns (toks: seq<string>)
    requires WellFormed(p) && (q == [] || WellFormed(q)) && !Covers(p, q)
    ensures Matches(q, toks) && !Matches(p, toks)
    decreases |p|
  {
    if q == [] {
      toks := [];
    } else if q[0] == Fwc {
      toks := if p[0].Lit? then [p[0].t + "x"] else if |p| == 1 then ["x", "x"] else ["x"];
      if p[0].Lit? {
        assert (p[0].t + "x") != p[0].t by { assert |p[0].t + "x"| == |p[0].t| + 1; }
      } else if |p| == 1 {
        assert !Matches([], ["x", "x"][1..]);
      } else {
        assert !Matches(p[1..], ["x"][1..]);
      }
    } else if p[0].Lit? && q[0] != p[0] {
      var head := if q[0].Lit? then q[0].t else p[0].t + "x";
      assert head != p[0].t by { assert |p[0].t + "x"| == |p[0].t| + 1; }
      toks := [head] + Sample(q[1..]);
      assert toks[1..] == Sample(q[1..]);
    } else {
      var rest;
      if |p| == 1 {
        assert q[1..] != [];
        rest := Sample(q[1..]);
      } else {
        rest := Witness(p[1..], q[1..]);
      }
      toks := [if q[0].Lit? then q[0].t else "x"] + rest;
      assert toks[1..] == rest;
    }
  }

  // ---------- The character scan of the cache ----------

  /** No token is empty. */
  predicate NonEmptyTokens(toks: seq<string>) {
    forall i :: 0 <= i < |toks| ==> toks[i] != ""
  }

  predicate IsWildcard(c: char) {
    c == '*' || c == '>'
  }

  /** Wildcards stand alone in their token, and `>` is the last one. */
  predicate ValidPatternTokens(toks: seq<string>) {
    toks == [] ||
    (&& toks[0] != ""
     && (toks[0] == "*" || (toks[0] == ">" && |toks| == 1) || forall i :: 0 <= i < |toks[0]| ==>
         !IsWildcard(toks[0][i]))
     && ValidPatternTokens(toks[1..]))
  }

  predicate ValidPattern(subject: string) {
    ValidPatternTokens(Split(subject))
  }

  predicate ValidSubject(subject: string) {
    NonEmptyTokens(Split(subject))
  }

  function Parse(toks: seq<string>): (p: Pattern)
    requires NonEmptyTokens(toks)
    ensures |p| == |toks|
  {
    if toks == [] then [] else [Kind(toks[0])] + Parse(toks[1..])
  }

  lemma {:induction false} ValidIsNonEmpty(toks: seq<string>)
    requires ValidPatternTokens(toks)
    ensures NonEmptyTokens(toks)
    ensures toks != [] ==> WellFormed(Parse(toks))
    decreases |toks|
  {
    if toks != [] {
      ValidIsNonEmpty(toks[1..]);
      assert toks == [toks[0]] + toks[1..];
      assert Parse(toks)[1..] == Parse(toks[1..]);
    }
  }

  /** What is left of `s` after its first token. */
  function SkipToken(s: string): (r: string) {
    s[FirstSep(s)..]
  }

  /** The scan, from the current positions in the pattern and in the literal. */
  predicate Scan(pat: string, lit: string)
    decreases |pat|
  {
    if pat == "" then lit == ""
    else if lit == "" then false
    else if pat[0] == '*' then Scan(pat[1..], SkipToken(lit))
    else if pat[0] == '>' then true
    else pat[0] == lit[0] && Scan(pat[1..], lit[1..])
  }

  /** Tests a literal subject against a pattern, without cutting either into tokens. */
  method MatchLiteral(literal: string, subject: string) returns (r: bool)
    ensures r == Scan(subject, literal)
    ensures ValidSubject(literal) && ValidPattern(subject) ==>
              (r <==> NonEmptyTokens(Split(subject)) && Matches(Parse(Split(subject)), Split(literal)))
  {
    if ValidSubject(literal) && ValidPattern(subject) {
      ValidIsNonEmpty(Split(subject));
      ScanIsMatch(subject, literal);
    }
    var li := 0;
    for i := 0 to |subject|
      invariant 0 <= li <= |literal|
      invariant Scan(subject, literal) == Scan(subject[i..], literal[li..])
    {
      if li >= |literal| {
        return false;
      }
      var b := subject[i];
      assert subject[i..][1..] == subject[i + 1..];
      if b == '*' {
        ghost var start := li;
        while li < |literal| && literal[li] != SEP
          invariant start <= li <= |literal|
          invariant forall j :: start <= j < li ==> literal[j] != SEP
        {
          li := li + 1;
        }
        FirstSepIs(literal[start..], li - start);
        assert SkipToken(literal[start..]) == literal[li..];
      } else if b == '>' {
        return true;
      } else {
        if b != literal[li] {
          return false;
        }
        assert literal[li..][1..] == literal[li + 1..];
        li := li + 1;
      }
    }
    return li >= |literal|;
  }

  /** Scanning past a run of ordinary characters compares them. */
  lemma {:induction false} ScanLiteral(t: string, rest: string, lit: string)
    requires forall i :: 0 <= i < |t| ==> !IsWildcard(t[i])
    ensures Scan(t + rest, lit) <==> t <= lit && Scan(rest, lit[|t|..])
    decreases |t|
  {
    if t == "" {
      assert t + rest == rest && lit[0..] == lit;
    } else if lit != "" {
      assert (t + rest)[1..] == t[1..] + rest;
      ScanLiteral(t[1..], rest, lit[1..]);
      assert t[0] == lit[0] && t[1..] <= lit[1..] ==> t <= lit;
      assert |t| <= |lit| ==> lit[1..][|t| - 1..] == lit[|t|..];
    }
  }

  lemma {:induction false} SplitFirst(s: string)
    ensures var i := FirstSep(s);
            && Split(s)[0] == s[..i]
            && (i == |s| ==> |Split(s)| == 1)
            && (i < |s| ==> Split(s)[1..] == Split(s[i + 1..]) && s == s[..i] + [SEP] + s[i + 1..])
  {
    var i := FirstSep(s);
    if i < |s| {
      assert ([s[..i]] + Split(s[i + 1..]))[1..] == Split(s[i + 1..]);
    } else {
      assert s[..i] == s;
    }
  }

  /** The scan decides whether the pattern matches token by token. */
  lemma {:induction false} ScanIsMatch(pat: string, lit: string)
    requires ValidPatternTokens(Split(pat)) && NonEmptyTokens(Split(pat)) && NonEmptyTokens(Split(lit))
    ensures Scan(pat, lit) <==> Matches(Parse(Split(pat)), Split(lit))
    decreases |pat|
  {
    var i, j := FirstSep(pat), FirstSep(lit);
    SplitFirst(pat);
    SplitFirst(lit);
    ScanRest(pat, lit, i, j);
    MatchFirst(Split(pat), Split(lit));
    if pat[..i] == ">" {
      assert pat[0] == '>';
    } else if pat[..i] == "*" {
      ScanStar(pat, lit, i, j);
    } else {
      ScanToken(pat, lit, i, j);
    }
  }

  /** A match by its first token. */
  lemma MatchFirst(ps: seq<string>, ls: seq<string>)
    requires ValidPatternTokens(ps) && NonEmptyTokens(ps) && ps != [] && ls != []
    ensures ps[0] == ">" ==> Matches(Parse(ps), ls)
    ensures ps[0] == "*" ==> (Matches(Parse(ps), ls) <==> Matches(Parse(ps[1..]), ls[1..]))
    ensures ps[0] != ">" && ps[0] != "*" ==>
              (Matches(Parse(ps), ls) <==> ps[0] == ls[0] && Matches(Parse(ps[1..]), ls[1..]))
  {
    assert Parse(ps)[1..] == Parse(ps[1..]);
  }

  /** A scan past `*`. */
  lemma ScanStar(pat: string, lit: string, i: nat, j: nat)
    requires i == FirstSep(pat) && j == FirstSep(lit) && pat[..i] == "*" && lit != ""
    ensures Scan(pat, lit) <==> Scan(pat[i..], lit[j..])
  {
    assert i == 1 && pat[0] == '*';
    assert SkipToken(lit) == lit[j..];
  }

  /** A scan past a literal token: it has to be the same. */
  lemma ScanToken(pat: string, lit: string, i: nat, j: nat)
    requires i == FirstSep(pat) && j == FirstSep(lit) && i > 0 && forall k :: 0 <= k < i ==> !IsWildcard(pat[k])
    ensures Scan(pat, lit) <==> pat[..i] == lit[..j] && Scan(pat[i..], lit[j..])
  {
    var t, rest := pat[..i], pat[i..];
    assert pat == t + rest;
    ScanLiteral(t, rest, lit);
    if t == lit[..j] {
      assert t <= lit && |t| == j;
    } else {
      ScanOther(t, rest, lit, j);
    }
  }

  /** From the ends of the first tokens on. */
  lemma {:induction false} ScanRest(pat: string, lit: string, i: nat, j: nat)
    requires ValidPatternTokens(Split(pat)) && NonEmptyTokens(Split(pat)) && NonEmptyTokens(Split(lit))
    requires i == FirstSep(pat) && j == FirstSep(lit)
    ensures Scan(pat[i..], lit[j..]) <==> Matches(Parse(Split(pat)[1..]), Split(lit)[1..])
    decreases |pat|, 0
  {
    SplitFirst(pat);
    SplitFirst(lit);
    if i < |pat| && j < |lit| {
      assert pat[i..][1..] == pat[i + 1..] && lit[j..][1..] == lit[j + 1..];
      NonEmptyRest(Split(pat));
      NonEmptyRest(Split(lit));
      ScanIsMatch(pat[i + 1..], lit[j + 1..]);
    }
  }

  lemma NonEmptyRest(toks: seq<string>)
    requires NonEmptyTokens(toks) && toks != []
    ensures NonEmptyTokens(toks[1..])
  {
  }

  /** Different first tokens: the scan fails. */
  lemma ScanOther(t: string, rest: string, lit: string, j: nat)
    requires j == FirstSep(lit) && t != lit[..j] && SEP !in t && (rest == "" || rest[0] == SEP)
    ensures !(t <= lit && Scan(rest, lit[|t|..]))
  {
    if t <= lit && |t| < j {
      assert lit[|t|..][0] == lit[|t|];
    }
  }
}
