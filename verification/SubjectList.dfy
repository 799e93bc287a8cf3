/** Listing the subjects of a trie from the widest to the narrowest (util/sublist.go). */
module SubjectList {
  import opened Basics
  import opened Subjects
  import opened Sublist

  function Rank(tok: Tok): nat {
    match tok
    case Fwc => 0
    case Pwc => 1
    case Lit(_) => 2
  }

  /** Walking down the trie, `p` is met before `q`; different literals come in any order. */
  predicate Earlier(p: Pattern, q: Pattern) {
    p != [] && q != [] &&
    (|| Rank(p[0]) < Rank(q[0])
     || (p[0] == q[0] && |q| > 1 && (|p| == 1 || Earlier(p[1..], q[1..]))))
  }

  /** No pattern is met before one that it follows. */
  predicate Ordered(r: seq<Pattern>) {
    forall i, j :: 0 <= i < j < |r| ==> !Earlier(r[j], r[i]) && r[i] != r[j]
  }

  /** A wider pattern is met before a narrower one. */
  lemma {:induction false} WiderIsEarlier(p: Pattern, q: Pattern)
    requires Covers(p, q) && p != q
    ensures Earlier(p, q)
    decreases |p|
  {
    if p[0] == Fwc {
      if q[0] == Fwc {
        assert q == p + q[1..];
      }
    } else if p[0] == q[0] {
      assert p == [p[0]] + p[1..] && q == [q[0]] + q[1..];
      WiderIsEarlier(p[1..], q[1..]);
    }
  }

  /** In such a list, no pattern is followed by a wider one. */
  lemma OrderedIsWidestFirst(r: seq<Pattern>, i: nat, j: nat)
    requires Ordered(r) && i < j < |r|
    ensures !Covers(r[j], r[i])
  {
    if Covers(r[j], r[i]) {
      WiderIsEarlier(r[j], r[i]);
    }
  }

  /** The patterns that the listing reports: those with an element, and those ending with `>`. */
  predicate Listed(l: Level, p: Pattern)
    decreases |p|
  {
    p != [] && l.Child(p[0]).Some? &&
    if |p| == 1 then p[0] == Fwc || l.Child(p[0]).value.elements != []
    else p[0] != Fwc && Listed(l.Child(p[0]).value.next, p[1..])
  }

  lemma OrderedAppend(a: seq<Pattern>, b: seq<Pattern>)
    requires Ordered(a) && Ordered(b) && forall x, y :: x in a && y in b ==> !Earlier(y, x) && x != y
    ensures Ordered(a + b)
  {
    forall i, j | 0 <= i < j < |a + b|
      ensures !Earlier((a + b)[j], (a + b)[i]) && (a + b)[i] != (a + b)[j]
    {
      if i < |a| <= j {
        assert a[i] in a && b[j - |a|] in b;
      }
    }
  }

  lemma OrderedPrefixed(tok: Tok, ps: seq<Pattern>)
    requires Ordered(ps) && forall i :: 0 <= i < |ps| ==> ps[i] != []
    ensures Ordered(Prefixed(tok, ps))
  {
    forall i, j | 0 <= i < j < |ps|
      ensures !Earlier([tok] + ps[j], [tok] + ps[i]) && [tok] + ps[i] != [tok] + ps[j]
    {
      assert ([tok] + ps[j])[1..] == ps[j] && ([tok] + ps[i])[1..] == ps[i];
    }
  }

  /** The subjects of one node: its own, if it has elements, then those below it. */
  method NodeSubjects(tok: Tok, n: Node) returns (r: seq<Pattern>)
    requires tok != Fwc
    ensures Ordered(r)
    ensures forall p :: p in r <==>
              p != [] && p[0] == tok && (if |p| == 1 then n.elements != [] else Listed(n.next, p[1..]))
    decreases n, 1
  {
    var own: seq<Pattern> := if |n.elements| > 0 then [[tok]] else [];
    var sub := GetSubjects(n.next);
    var below := Prefixed(tok, sub);
    assert forall i :: 0 <= i < |sub| ==> sub[i] in sub && Listed(n.next, sub[i]);
    OrderedPrefixed(tok, sub);
    forall p | p != [] ensures p in below <==> p[0] == tok && p[1..] in sub { PrefixedHas(tok, sub, p); }
    assert forall p :: p in below ==> p != [];
    OrderedAppend(own, below);
    r := own + below;
    forall p ensures p in r <==>
        p != [] && p[0] == tok && (if |p| == 1 then n.elements != [] else Listed(n.next, p[1..])) {
      assert p in r <==> p in own || p in below;
      if |p| == 1 { assert p == [p[0]] && p[1..] == []; }
    }
  }

  method WildcardSubjects(l: Level) returns (r: seq<Pattern>)
    ensures Ordered(r)
    ensures forall p: Pattern :: p in r <==> Listed(l, p) && !p[0].Lit?
    decreases l, 0, 0
  {
    r := if l.fwc.Some? then [[Fwc]] else [];
    forall p: Pattern ensures p in r <==> Listed(l, p) && p[0] == Fwc {
      if |p| == 1 { assert p == [p[0]]; }
    }
    if l.pwc.Some? {
      var sub := NodeSubjects(Pwc, l.pwc.value);
      OrderedAppend(r, sub);
      r := r + sub;
    }
  }

  method GetSubjects(l: Level) returns (r: seq<Pattern>)
    ensures Ordered(r)
    ensures forall p :: p in r <==> Listed(l, p)
    decreases l, 0, 1
  {
    r := WildcardSubjects(l);
    var keys := l.nodes.Keys;
    while keys != {}
      invariant keys <= l.nodes.Keys && Ordered(r)
      invariant forall p: Pattern :: p in r <==> Listed(l, p) && (p[0].Lit? ==> p[0].t !in keys)
      decreases keys
    {
      var t :| t in keys;
      var sub := NodeSubjects(Lit(t), l.nodes[t]);
      OrderedAppend(r, sub);
      r := r + sub;
      keys := keys - {t};
    }
  }

  /** Inserting under a pattern adds that pattern to the listing, and nothing else. */
  lemma {:induction false} InsertedListed(l: Level, p: Pattern, e: Element, q: Pattern)
    requires p != [] && WellFormed(p)
    ensures Listed(Inserted(l, p, e), q) <==> q == p || Listed(l, q)
    decreases |p|
  {
    if q != [] && q[0] == p[0] {
      if |p| > 1 {
        assert p == [p[0]] + p[1..] && q == [q[0]] + q[1..];
        InsertedListed(GetOr(l.Child(p[0])).next, p[1..], e, q[1..]);
      }
    }
  }
}
