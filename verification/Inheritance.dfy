/** Inheritance of channel limits along the order of the sublist (stores/limits.go, stores/common.go). */
module Inheritance {
  import opened Basics
  import opened Subjects
  import opened SubjectNames
  import opened Sublist
  import opened SubjectList

  datatype ChannelLimits = ChannelLimits(
    maxSubscriptions: int, maxMsgs: int, maxBytes: int, maxAge: int, maxInactivity: int)

  function InheritField(own: int, parent: int): int {
    if own < 0 then 0 else if own == 0 then parent else own
  }

  function Inherit(own: ChannelLimits, parent: ChannelLimits): ChannelLimits {
    ChannelLimits(
      InheritField(own.maxSubscriptions, parent.maxSubscriptions),
      InheritField(own.maxMsgs, parent.maxMsgs),
      InheritField(own.maxBytes, parent.maxBytes),
      InheritField(own.maxAge, parent.maxAge),
      InheritField(own.maxInactivity, parent.maxInactivity))
  }

  // ---------- Earlier is an order, and searches follow it ----------

  lemma {:induction false} EarlierTransitive(a: Pattern, b: Pattern, c: Pattern)
    requires Earlier(a, b) && Earlier(b, c)
    ensures Earlier(a, c)
    decreases |a|
  {
    if a[0] == b[0] == c[0] && |a| > 1 {
      EarlierTransitive(a[1..], b[1..], c[1..]);
    }
  }

  lemma {:induction false} NotEarlierThanItself(a: Pattern)
    ensures !Earlier(a, a)
    decreases |a|
  {
    if |a| > 1 {
      NotEarlierThanItself(a[1..]);
    }
  }

  /** Two patterns behind the same token. */
  lemma EarlierBehind(tok: Tok, ps: seq<Pattern>, i: nat, j: nat)
    requires i < j < |ps| && ps[i] != [] && ps[j] != [] && Earlier(ps[i], ps[j])
    ensures Earlier(Prefixed(tok, ps)[i], Prefixed(tok, ps)[j])
  {
    var p, q := [tok] + ps[i], [tok] + ps[j];
    assert p[1..] == ps[i] && q[1..] == ps[j];
  }

  /** A longer list of tokens: which patterns are at a place of the search. */
  lemma PlaceInSearch(toks: seq<string>, i: nat)
    requires |toks| > 1 && i < |Patterns(toks)|
    ensures var sub := Patterns(toks[1..]);
            var n := |sub|;
            && |Patterns(toks)| == 1 + n + n
            && Patterns(toks)[i] == if i == 0 then [Fwc] else if i <= n then Prefixed(Pwc, sub)[i - 1]
              else Prefixed(Lit(toks[0]), sub)[i - 1 - n]
  {
    var sub := Patterns(toks[1..]);
    assert Patterns(toks) == [[Fwc]] + Prefixed(Pwc, sub) + Prefixed(Lit(toks[0]), sub);
  }

  lemma {:induction false} SearchIsEarlier(toks: seq<string>, i: nat, j: nat)
    requires i < j < |Patterns(toks)|
    ensures Earlier(Patterns(toks)[i], Patterns(toks)[j])
    decreases |toks|
  {
    if |toks| > 1 {
      var sub := Patterns(toks[1..]);
      PatternsNotEmpty(toks[1..]);
      PlaceInSearch(toks, i);
      PlaceInSearch(toks, j);
      var from := if j <= |sub| then 1 else 1 + |sub|;
      if i >= from {
        SearchIsEarlier(toks[1..], i - from, j - from);
        EarlierBehind(if j <= |sub| then Pwc else Lit(toks[0]), sub, i - from, j - from);
      }
    }
  }

  predicate Sorted(r: seq<Pattern>) {
    forall i, j :: 0 <= i < j < |r| ==> Earlier(r[i], r[j])
  }

  function Filter(ps: seq<Pattern>, among: set<Pattern>): (r: seq<Pattern>)
    ensures forall p :: p in r <==> p in ps && p in among
  {
    if ps == [] then []
    else if ps[0] in among then [ps[0]] + Filter(ps[1..], among)
    else Filter(ps[1..], among)
  }

  lemma {:induction false} FilterSorted(ps: seq<Pattern>, among: set<Pattern>)
    requires Sorted(ps)
    ensures Sorted(Filter(ps, among))
    decreases |ps|
  {
    if ps != [] {
      FilterSorted(ps[1..], among);
      var rest := Filter(ps[1..], among);
      forall k | 0 <= k < |rest| ensures Earlier(ps[0], rest[k]) {
        assert rest[k] in ps[1..];
      }
    }
  }

  /** The configured patterns that match the tokens, in search order. */
  function Chain(among: set<Pattern>, toks: seq<string>): seq<Pattern> {
    Filter(Patterns(toks), among)
  }

  lemma ChainSorted(among: set<Pattern>, toks: seq<string>)
    ensures Sorted(Chain(among, toks))
  {
    forall i, j | 0 <= i < j < |Patterns(toks)|
      ensures Earlier(Patterns(toks)[i], Patterns(toks)[j])
    {
      SearchIsEarlier(toks, i, j);
    }
    FilterSorted(Patterns(toks), among);
  }

  /** The configured names: patterns that a name check lets through. */
  predicate Names(among: set<Pattern>) {
    forall p :: p in among ==> p != [] && WellFormed(p) && Clean(p)
  }

  lemma InOwnChain(among: set<Pattern>, p: Pattern)
    requires Names(among) && p in among
    ensures p in Chain(among, Texts(p))
  {
    MatchesItself(p);
    PatternsAreMatches(Texts(p), p);
  }

  lemma SortedPosition(r: seq<Pattern>, i: nat)
    requires Sorted(r) && i < |r|
    ensures IndexOf(r, r[i]) == i
  {
    var k := IndexOf(r, r[i]);
    NotEarlierThanItself(r[i]);
  }

  function EarlierIn(among: set<Pattern>, p: Pattern): set<Pattern> {
    set q | q in among && Earlier(q, p)
  }

  lemma FewerEarlier(among: set<Pattern>, q: Pattern, p: Pattern)
    requires q in among && Earlier(q, p)
    ensures EarlierIn(among, q) < EarlierIn(among, p)
  {
    forall x | x in EarlierIn(among, q) ensures x in EarlierIn(among, p) {
      EarlierTransitive(x, q, p);
    }
    NotEarlierThanItself(q);
    assert q in EarlierIn(among, p) && q !in EarlierIn(among, q);
  }

  /** The pattern just before `p` among those that match it. */
  function Parent(among: set<Pattern>, p: Pattern): (r: Option<Pattern>)
    requires Names(among) && p in among
    ensures r.Some? ==> r.value in among && EarlierIn(among, r.value) < EarlierIn(among, p)
  {
    InOwnChain(among, p);
    ChainSorted(among, Texts(p));
    var r := Chain(among, Texts(p));
    var i := IndexOf(r, p);
    if i == 0 then None
    else
      assert r[i - 1] in r;
      FewerEarlier(among, r[i - 1], p);
      Some(r[i - 1])
  }

  /** The limits of a pattern: its own where set, else those of its parent, or the global ones. */
  function Resolved(own: map<Pattern, ChannelLimits>, global: ChannelLimits, p: Pattern): ChannelLimits
    requires Names(own.Keys) && p in own
    decreases EarlierIn(own.Keys, p)
  {
    var parent := Parent(own.Keys, p);
    Inherit(own[p], if parent.None? then global else Resolved(own, global, parent.value))
  }

  // ---------- Which patterns share a chain ----------

  /** The patterns after a first token. */
  function After(tok: Tok, among: set<Pattern>): set<Pattern> {
    set p | p in among && p != [] && p[0] == tok :: p[1..]
  }

  lemma InAfter(tok: Tok, among: set<Pattern>, p: Pattern)
    ensures [tok] + p in among <==> p in After(tok, among)
  {
    var q := [tok] + p;
    assert q[1..] == p && q[0] == tok;
    if p in After(tok, among) {
      var x :| x in among && x != [] && x[0] == tok && x[1..] == p;
      assert x == q;
    }
  }

  lemma {:induction false} FilterPrefixed(tok: Tok, ps: seq<Pattern>, among: set<Pattern>)
    ensures Filter(Prefixed(tok, ps), among) == Prefixed(tok, Filter(ps, After(tok, among)))
    decreases |ps|
  {
    if ps != [] {
      InAfter(tok, among, ps[0]);
      FilterPrefixed(tok, ps[1..], among);
      PrefixedFirst(tok, ps);
      if ps[0] in After(tok, among) {
        PrefixedPush(tok, ps[0], Filter(ps[1..], After(tok, among)));
      }
    }
  }

  lemma PrefixedFirst(tok: Tok, ps: seq<Pattern>)
    requires ps != []
    ensures Prefixed(tok, ps)[0] == [tok] + ps[0] && Prefixed(tok, ps)[1..] == Prefixed(tok, ps[1..])
  {
  }

  lemma PrefixedPush(tok: Tok, p: Pattern, ps: seq<Pattern>)
    ensures Prefixed(tok, [p] + ps) == [[tok] + p] + Prefixed(tok, ps)
  {
  }

  lemma {:induction false} FilterAppend(ps: seq<Pattern>, qs: seq<Pattern>, among: set<Pattern>)
    ensures Filter(ps + qs, among) == Filter(ps, among) + Filter(qs, among)
    decreases |ps|
  {
    if ps == [] {
      assert ps + qs == qs;
    } else {
      assert (ps + qs)[1..] == ps[1..] + qs;
      FilterAppend(ps[1..], qs, among);
    }
  }

  /** No pattern ends with `t` as a literal. */
  predicate NoneEndsWith(among: set<Pattern>, t: string) {
    forall p :: p in among && p != [] ==> p[|p| - 1] != Lit(t)
  }

  lemma AfterEndsWith(tok: Tok, among: set<Pattern>, t: string)
    requires NoneEndsWith(among, t)
    ensures NoneEndsWith(After(tok, among), t)
  {
    forall q | q in After(tok, among) && q != [] ensures q[|q| - 1] != Lit(t) {
      var p :| p in among && p != [] && p[0] == tok && p[1..] == q;
      assert p[|p| - 1] == q[|q| - 1];
    }
  }

  /** If no pattern has the last token as a literal, the chain does not depend on it. */
  lemma {:induction false} LastTokenIrrelevant(among: set<Pattern>, y: seq<string>, a: string, b: string)
    requires NoneEndsWith(among, a) && NoneEndsWith(among, b)
    ensures Chain(among, y + [a]) == Chain(among, y + [b])
    decreases |y|
  {
    if y == [] {
      OneTokenChain(among, a);
      OneTokenChain(among, b);
      assert y + [a] == [a] && y + [b] == [b];
    } else {
      var t := Lit(y[0]);
      assert (y + [a])[1..] == y[1..] + [a] && (y + [b])[1..] == y[1..] + [b];
      AfterEndsWith(Pwc, among, a);
      AfterEndsWith(Pwc, among, b);
      AfterEndsWith(t, among, a);
      AfterEndsWith(t, among, b);
      LastTokenIrrelevant(After(Pwc, among), y[1..], a, b);
      LastTokenIrrelevant(After(t, among), y[1..], a, b);
      ChainCons(among, y + [a]);
      ChainCons(among, y + [b]);
    }
  }

  lemma OneTokenChain(among: set<Pattern>, a: string)
    requires NoneEndsWith(among, a)
    ensures Chain(among, [a]) == Filter([[Fwc], [Pwc]], among)
  {
    var lit: Pattern := [Lit(a)];
    assert lit[|lit| - 1] == Lit(a);
    assert [[Fwc], [Pwc], lit] == [[Fwc], [Pwc]] + [lit];
    FilterAppend([[Fwc], [Pwc]], [lit], among);
  }

  lemma ChainCons(among: set<Pattern>, toks: seq<string>)
    requires |toks| > 1
    ensures Chain(among, toks) ==
            Filter([[Fwc]], among) + Prefixed(Pwc, Chain(After(Pwc, among), toks[1..]))
            + Prefixed(Lit(toks[0]), Chain(After(Lit(toks[0]), among), toks[1..]))
  {
    var sub := Patterns(toks[1..]);
    FilterAppend([[Fwc]] + Prefixed(Pwc, sub), Prefixed(Lit(toks[0]), sub), among);
    FilterAppend([[Fwc]], Prefixed(Pwc, sub), among);
    FilterPrefixed(Pwc, sub, among);
    FilterPrefixed(Lit(toks[0]), sub, among);
  }

  /** A later pattern that matches the text of `p`: it can only be `x.*` where `p` is `x.>`. */
  lemma {:induction false} LaterMatch(p: Pattern, q: Pattern)
    requires Clean(p) && Clean(q) && p != [] && WellFormed(p) && Earlier(p, q) && Matches(q, Texts(p))
    ensures |p| == |q| && p[..|p| - 1] == q[..|p| - 1] && p[|p| - 1] == Fwc && q[|p| - 1] == Pwc
    decreases |p|
  {
    assert Texts(p)[0] == TokText(p[0]) && Texts(p)[1..] == Texts(p[1..]);
    if p[0] == q[0] {
      LaterMatch(p[1..], q[1..]);
      assert p == [p[0]] + p[1..] && q == [q[0]] + q[1..];
    } else if p[0] == Fwc {
      assert p == [Fwc] && Texts(p[1..]) == [];
      assert q == [q[0]] + q[1..];
    }
  }

  lemma {:induction false} TextsPrefix(p: Pattern, q: Pattern) returns (y: seq<string>)
    requires p != [] && |p| == |q| && p[..|p| - 1] == q[..|p| - 1]
    ensures Texts(p) == y + [TokText(p[|p| - 1])] && Texts(q) == y + [TokText(q[|p| - 1])]
    decreases |p|
  {
    if |p| == 1 {
      y := [];
    } else {
      assert p[1..][..|p| - 2] == p[..|p| - 1][1..] && q[1..][..|p| - 2] == q[..|p| - 1][1..];
      var z := TextsPrefix(p[1..], q[1..]);
      assert p[0] == p[..|p| - 1][0] == q[..|p| - 1][0] == q[0];
      y := [TokText(p[0])] + z;
    }
  }

  lemma {:induction false} CleanLast(p: Pattern)
    requires Clean(p) && p != []
    ensures CleanTok(p[|p| - 1])
    decreases |p|
  {
    if |p| > 1 {
      CleanLast(p[1..]);
    }
  }

  /** In a sorted list, of two different patterns one is earlier. */
  lemma SortedEither(r: seq<Pattern>, p: Pattern, q: Pattern)
    requires Sorted(r) && p in r && q in r && p != q
    ensures Earlier(p, q) || Earlier(q, p)
  {
    var i, j := IndexOf(r, p), IndexOf(r, q);
  }

  /** Names do not have wildcards as literals. */
  lemma NoWildcardEnds(among: set<Pattern>)
    requires Names(among)
    ensures NoneEndsWith(among, ">") && NoneEndsWith(among, "*")
  {
    forall x | x in among ensures x[|x| - 1] != Lit(">") && x[|x| - 1] != Lit("*") {
      CleanLast(x);
    }
  }

  /** Two configured patterns in one chain: either one is searched before the other, or both have the same chain. */
  lemma SameChain(among: set<Pattern>, p: Pattern, q: Pattern)
    requires Names(among) && p in among && q in Chain(among, Texts(p)) && !Earlier(q, p)
    ensures Chain(among, Texts(q)) == Chain(among, Texts(p))
  {
    if p != q {
      InOwnChain(among, p);
      ChainSorted(among, Texts(p));
      SortedEither(Chain(among, Texts(p)), p, q);
      PatternsAreMatches(Texts(p), q);
      LaterMatch(p, q);
      var y := TextsPrefix(p, q);
      NoWildcardEnds(among);
      LastTokenIrrelevant(among, y, ">", "*");
    }
  }

  // ---------- Literals ----------

  predicate IsLiteral(p: Pattern) {
    p == [] || (p[0].Lit? && IsLiteral(p[1..]))
  }

  /** Nothing is searched after a literal. */
  lemma {:induction false} LiteralIsLast(p: Pattern, q: Pattern, toks: seq<string>)
    requires IsLiteral(p) && Matches(p, toks) && Matches(q, toks)
    ensures !Earlier(p, q)
    decreases |p|
  {
    if p != [] && q != [] && p[0] == q[0] {
      LiteralIsLast(p[1..], q[1..], toks[1..]);
    }
  }

  lemma LiteralAtEnd(r: seq<Pattern>, p: Pattern, toks: seq<string>)
    requires Sorted(r) && p in r && IsLiteral(p) && Matches(p, toks) && Matches(r[|r| - 1], toks)
    ensures r[|r| - 1] == p
  {
    var i := IndexOf(r, p);
    if i < |r| - 1 {
      LiteralIsLast(p, r[|r| - 1], toks);
    }
  }

  /** A literal entry is the last match of its own name, whatever else is configured. */
  lemma LiteralWins(among: set<Pattern>, p: Pattern)
    requires Names(among) && p in among && IsLiteral(p)
    ensures var r := Chain(among, Texts(p)); r != [] && r[|r| - 1] == p
  {
    var r := Chain(among, Texts(p));
    InOwnChain(among, p);
    ChainSorted(among, Texts(p));
    MatchesItself(p);
    LastMatches(among, Texts(p));
    LiteralAtEnd(r, p, Texts(p));
  }

  lemma LastMatches(among: set<Pattern>, toks: seq<string>)
    requires toks != [] && Chain(among, toks) != []
    ensures var r := Chain(among, toks); Matches(r[|r| - 1], toks)
  {
    var r := Chain(among, toks);
    var last := r[|r| - 1];
    assert last in r;
    PatternsAreMatches(toks, last);
  }

  /** A result that begins with a literal has nothing else. */
  lemma LiteralAlone(among: set<Pattern>, toks: seq<string>)
    requires toks != [] && Chain(among, toks) != [] && IsLiteral(Chain(among, toks)[0])
    ensures |Chain(among, toks)| == 1
  {
    var r := Chain(among, toks);
    ChainSorted(among, toks);
    if |r| > 1 {
      assert r[0] in r && r[1] in r;
      PatternsAreMatches(toks, r[0]);
      PatternsAreMatches(toks, r[1]);
      LiteralIsLast(r[0], r[1], toks);
    }
  }
}
