/**
 The subject trie with its front cache (util/sublist.go).

 A node of the trie belongs to one place only, so the trie is a value here; what the operations update in place are the
 root, the cache and the count of the list.
 */
module Sublist {
  import opened Basics
  import opened Subjects

  type Element = int

  datatype Node = Node(next: Level, elements: seq<Element>)

  datatype Level = Level(nodes: map<string, Node>, pwc: Option<Node>, fwc: Option<Node>)
  {
    function Child(tok: Tok): Option<Node> {
      match tok
      case Pwc => pwc
      case Fwc => fwc
      case Lit(t) => if t in nodes then Some(nodes[t]) else None
    }

    function With(tok: Tok, n: Node): (l: Level)
      ensures forall k :: l.Child(k) == if k == tok then Some(n) else Child(k)
    {
      match tok
      case Pwc => this.(pwc := Some(n))
      case Fwc => this.(fwc := Some(n))
      case Lit(t) => this.(nodes := nodes[t := n])
    }

    function Without(tok: Tok): (l: Level)
      ensures forall k :: l.Child(k) == if k == tok then None else Child(k)
    {
      match tok
      case Pwc => this.(pwc := None)
      case Fwc => this.(fwc := None)
      case Lit(t) => this.(nodes := nodes - {t})
    }

    predicate IsEmpty() {
      nodes == map[] && pwc.None? && fwc.None?
    }
  }

  const NEW_LEVEL := Level(map[], None, None)
  const NEW_NODE := Node(NEW_LEVEL, [])

  function GetOr(n: Option<Node>): Node {
    if n.Some? then n.value else NEW_NODE
  }

  // ---------- What is stored where ----------

  /** The elements stored under a pattern. */
  function At(l: Level, p: Pattern): seq<Element> {
    if p == [] || l.Child(p[0]).None? then []
    else if |p| == 1 then l.Child(p[0]).value.elements
    else At(l.Child(p[0]).value.next, p[1..])
  }

  lemma {:induction false} AtNew(p: Pattern)
    ensures At(NEW_LEVEL, p) == []
  {
  }

  function Inserted(l: Level, p: Pattern, e: Element): Level
    decreases |p|
  {
    if p == [] then l
    else
      var n := GetOr(l.Child(p[0]));
      if |p| == 1 then l.With(p[0], n.(elements := n.elements + [e]))
      else l.With(p[0], n.(next := Inserted(n.next, p[1..], e)))
  }

  /** Inserting adds the element at the end of its pattern's list, and changes no other. */
  lemma {:induction false} InsertedAt(l: Level, p: Pattern, e: Element, q: Pattern)
    requires p != []
    ensures At(Inserted(l, p, e), q) == if q == p then At(l, p) + [e] else At(l, q)
    decreases |p|
  {
    if q != [] && q[0] == p[0] {
      var n := GetOr(l.Child(p[0]));
      if |p| > 1 && |q| > 1 {
        InsertedAt(n.next, p[1..], e, q[1..]);
        AtNew(q[1..]);
        AtNew(p[1..]);
        assert q == [q[0]] + q[1..] && p == [p[0]] + p[1..];
      } else if |p| == 1 && |q| > 1 {
        AtNew(q[1..]);
      } else if |p| == 1 {
        assert q == p;
      }
    }
  }

  /** Removing takes the first occurrence and puts the last element in its place. */
  function RemovedFrom(l: seq<Element>, e: Element): Option<seq<Element>> {
    if e !in l then None else Some(l[IndexOf(l, e) := l[|l| - 1]][..|l| - 1])
  }

  lemma {:induction false} RemovedFromList(l: seq<Element>, e: Element)
    requires e in l
    ensures multiset(RemovedFrom(l, e).value) == multiset(l) - multiset{e}
  {
    var i, last := IndexOf(l, e), |l| - 1;
    var r := RemovedFrom(l, e).value;
    assert l[i := l[last]] == r + [l[last]];
    var x := multiset{l[last]};
    assert multiset(l) - multiset{e} + x == multiset(r) + x by {
      assert multiset(l[i := l[last]]) == multiset(l) - multiset{e} + x;
      assert multiset(r + [l[last]]) == multiset(r) + x;
    }
    assert multiset(r) + x - x == multiset(r);
    assert multiset(l) - multiset{e} + x - x == multiset(l) - multiset{e};
  }

  function Removed(l: Level, p: Pattern, e: Element): Option<Level>
    decreases |p|
  {
    if p == [] || l.Child(p[0]).None? then None
    else
      var n := l.Child(p[0]).value;
      var n' :=
        if |p| == 1 then
          var es := RemovedFrom(n.elements, e);
          if es.None? then None else Some(n.(elements := es.value))
        else
          var next := Removed(n.next, p[1..], e);
          if next.None? then None else Some(n.(next := next.value));
      if n'.None? then None
      else if n'.value.elements == [] && n'.value.next.IsEmpty() then Some(l.Without(p[0]))
      else Some(l.With(p[0], n'.value))
  }

  /** Removing takes one occurrence of the element out of its pattern's list, and changes no other. */
  lemma {:induction false} RemovedAt(l: Level, p: Pattern, e: Element, q: Pattern)
    requires p != []
    ensures Removed(l, p, e).Some? <==> e in At(l, p)
    ensures Removed(l, p, e).Some? ==>
              At(Removed(l, p, e).value, q) == if q == p then RemovedFrom(At(l, p), e).value else At(l, q)
    decreases |p|
  {
    if l.Child(p[0]).Some? {
      var n := l.Child(p[0]).value;
      if |p| > 1 {
        RemovedAt(n.next, p[1..], e, if q == [] then [] else q[1..]);
      }
      if Removed(l, p, e).Some? && q != [] && q[0] == p[0] {
        assert q == [q[0]] + q[1..] && p == [p[0]] + p[1..];
        if |p| == 1 && |q| > 1 && n.next.IsEmpty() {
          AtNew(q[1..]);
        }
      }
    }
  }

  // ---------- Searching ----------

  function Elements(n: Option<Node>): seq<Element> {
    if n.None? then [] else n.value.elements
  }

  function Next(n: Option<Node>): Option<Level> {
    if n.None? then None else Some(n.value.next)
  }

  /** What the search loop still appends, when it stands before `toks` and last saw the nodes `pwc` and `n`. */
  function Search(l: Option<Level>, toks: seq<string>, pwc: Option<Node>, n: Option<Node>): seq<Element>
    decreases |toks|
  {
    if toks == [] then Elements(pwc) + Elements(n)
    else if l.None? then []
    else
      var node := l.value.Child(Lit(toks[0]));
      Elements(l.value.fwc)
      + (if l.value.pwc.Some? then Search(Next(l.value.pwc), toks[1..], None, None) else [])
      + Search(Next(node), toks[1..], l.value.pwc, node)
  }

  method MatchLevel(l: Option<Level>, toks: seq<string>, results: seq<Element>) returns (r: seq<Element>)
    ensures r == results + Search(l, toks, None, None)
    decreases |toks|
  {
    r := results;
    var l, pwc, n := l, None, None;
    ghost var all := results + Search(l, toks, None, None);
    for i := 0 to |toks|
      invariant r + Search(l, toks[i..], pwc, n) == all
    {
      if l.None? {
        return;
      }
      SearchStep(r, l.value, toks, i, pwc, n);
      r := r + Elements(l.value.fwc);
      pwc := l.value.pwc;
      if pwc.Some? {
        r := MatchLevel(Next(pwc), toks[i + 1..], r);
      }
      n := l.value.Child(Lit(toks[i]));
      l := Next(n);
    }
    r := r + Elements(pwc) + Elements(n);
  }

  lemma SearchStep(r: seq<Element>, l: Level, toks: seq<string>, i: nat, pwc: Option<Node>, n: Option<Node>)
    requires i < |toks|
    ensures var node := l.Child(Lit(toks[i]));
            var r1 := r + Elements(l.fwc);
            var r2 := if l.pwc.Some? then r1 + Search(Next(l.pwc), toks[i + 1..], None, None) else r1;
            r + Search(Some(l), toks[i..], pwc, n) == r2 + Search(Next(node), toks[i + 1..], l.pwc, node)
  {
    assert toks[i..][1..] == toks[i + 1..] && toks[i..][0] == toks[i];
    var node := l.Child(Lit(toks[i]));
    Regroup(r, Elements(l.fwc), if l.pwc.Some? then Search(Next(l.pwc), toks[i + 1..], None, None) else [],
            Search(Next(node), toks[i + 1..], l.pwc, node));
  }

  lemma Regroup(r: seq<Element>, a: seq<Element>, b: seq<Element>, c: seq<Element>)
    ensures r + (a + b + c) == r + a + b + c
    ensures r + a + [] == r + a
  {
  }

  /** The elements of a list of patterns, one after the other. */
  function Gather(l: Level, ps: seq<Pattern>): seq<Element> {
    if ps == [] then [] else At(l, ps[0]) + Gather(l, ps[1..])
  }

  lemma {:induction false} GatherAppend(l: Level, ps: seq<Pattern>, qs: seq<Pattern>)
    ensures Gather(l, ps + qs) == Gather(l, ps) + Gather(l, qs)
    decreases |ps|
  {
    if ps == [] {
      assert ps + qs == qs;
    } else {
      assert (ps + qs)[1..] == ps[1..] + qs;
      GatherAppend(l, ps[1..], qs);
    }
  }

  lemma {:induction false} GatherPrefixed(l: Level, tok: Tok, ps: seq<Pattern>)
    requires forall i :: 0 <= i < |ps| ==> ps[i] != []
    ensures Gather(l, Prefixed(tok, ps)) == if l.Child(tok).None? then [] else Gather(l.Child(tok).value.next, ps)
    decreases |ps|
  {
    if ps != [] {
      assert Prefixed(tok, ps)[1..] == Prefixed(tok, ps[1..]);
      GatherPrefixed(l, tok, ps[1..]);
      assert ([tok] + ps[0])[1..] == ps[0];
    }
  }

  lemma {:induction false} PatternsNotEmpty(toks: seq<string>)
    ensures forall i :: 0 <= i < |Patterns(toks)| ==> Patterns(toks)[i] != []
    decreases |toks|
  {
    if |toks| > 1 {
      PatternsNotEmpty(toks[1..]);
    }
  }

  /** A search returns the elements of exactly the matching patterns, from the widest to the narrowest. */
  lemma {:induction false} SearchIsGather(l: Level, toks: seq<string>)
    requires toks != []
    ensures Search(Some(l), toks, None, None) == Gather(l, Patterns(toks))
    decreases |toks|
  {
    SearchFromNodes(l, toks, None, None);
  }

  lemma {:induction false} SearchFromNodes(l: Level, toks: seq<string>, pwc: Option<Node>, n: Option<Node>)
    requires toks != []
    ensures Search(Some(l), toks, pwc, n) == Gather(l, Patterns(toks))
    decreases |toks|
  {
    var node := l.Child(Lit(toks[0]));
    if |toks| == 1 {
      assert toks[1..] == [];
      GatherThree(l, [Fwc], [Pwc], [Lit(toks[0])]);
    } else {
      GatherLevel(l, toks);
      if l.pwc.Some? {
        SearchFromNodes(l.pwc.value.next, toks[1..], None, None);
      }
      if node.Some? {
        SearchFromNodes(node.value.next, toks[1..], l.pwc, node);
      }
    }
  }

  /** The elements below a node. */
  function GatherBelow(n: Option<Node>, ps: seq<Pattern>): seq<Element> {
    if n.None? then [] else Gather(n.value.next, ps)
  }

  /** One level: `>` first, then what is below `*`, then what is below the token. */
  lemma GatherLevel(l: Level, toks: seq<string>)
    requires |toks| > 1
    ensures var sub := Patterns(toks[1..]);
            Gather(l, Patterns(toks)) == Elements(l.fwc) + GatherBelow(l.pwc, sub) + GatherBelow(l.Child(Lit(toks[0])),
                sub)
  {
    var sub := Patterns(toks[1..]);
    PatternsNotEmpty(toks[1..]);
    GatherAppend(l, [[Fwc]] + Prefixed(Pwc, sub), Prefixed(Lit(toks[0]), sub));
    GatherAppend(l, [[Fwc]], Prefixed(Pwc, sub));
    GatherPrefixed(l, Pwc, sub);
    GatherPrefixed(l, Lit(toks[0]), sub);
    assert Gather(l, [[Fwc]]) == Elements(l.fwc);
  }

  lemma GatherThree(l: Level, a: Pattern, b: Pattern, c: Pattern)
    ensures Gather(l, [a, b, c]) == At(l, a) + (At(l, b) + At(l, c))
  {
    assert [a, b, c][1..] == [b, c] && [b, c][1..] == [c] && [c][1..] == [];
    assert Gather(l, [c]) == At(l, c) + Gather(l, []);
    assert Gather(l, [b, c]) == At(l, b) + Gather(l, [c]);
  }

  // ---------- Inserting and removing, as seen by a search ----------

  lemma {:induction false} CoversItself(p: Pattern)
    requires p != [] ==> WellFormed(p)
    ensures Covers(p, p)
  {
    if |p| > 0 {
      CoversItself(p[1..]);
    }
  }

  lemma {:induction false} MatchingIsWellFormed(p: Pattern, toks: seq<string>)
    requires Matches(p, toks) && p != []
    ensures WellFormed(p)
  {
    if |p| > 1 {
      MatchingIsWellFormed(p[1..], toks[1..]);
    }
  }

  /** No pattern comes twice in a search. */
  lemma PatternsDistinct(toks: seq<string>, i: nat, j: nat)
    requires i < j < |Patterns(toks)|
    ensures Patterns(toks)[i] != Patterns(toks)[j]
  {
    WidestFirst(toks, i, j);
    PatternsAreMatches(toks, Patterns(toks)[i]);
    PatternsNotEmpty(toks);
    MatchingIsWellFormed(Patterns(toks)[i], toks);
    CoversItself(Patterns(toks)[i]);
  }

  lemma {:induction false} GatherInserted(l: Level, p: Pattern, e: Element, ps: seq<Pattern>)
    requires p != [] && NoDoubles(ps)
    ensures multiset(Gather(Inserted(l, p, e), ps)) == multiset(Gather(l, ps)) + if p in ps then multiset{e}
            else multiset{}
    decreases |ps|
  {
    if ps != [] {
      InsertedAt(l, p, e, ps[0]);
      GatherInserted(l, p, e, ps[1..]);
      assert p in ps <==> p == ps[0] || p in ps[1..];
      assert p == ps[0] ==> p !in ps[1..];
    }
  }

  lemma {:induction false} GatherSame(l: Level, l': Level, ps: seq<Pattern>)
    requires forall q :: q in ps ==> At(l', q) == At(l, q)
    ensures Gather(l', ps) == Gather(l, ps)
    decreases |ps|
  {
    if ps != [] {
      GatherSame(l, l', ps[1..]);
    }
  }

  function Fresh(root: Level, subject: string): seq<Element> {
    Search(Some(root), Split(subject), None, None)
  }

  /** After an insertion a search finds the element in addition, if and only if the pattern matches. */
  lemma InsertedFound(root: Level, p: Pattern, e: Element, toks: seq<string>)
    requires p != [] && toks != []
    ensures multiset(Search(Some(Inserted(root, p, e)), toks, None, None)) ==
            multiset(Search(Some(root), toks, None, None)) + if Matches(p, toks) then multiset{e} else multiset{}
  {
    SearchIsGather(root, toks);
    SearchIsGather(Inserted(root, p, e), toks);
    forall i, j | 0 <= i < j < |Patterns(toks)|
      ensures Patterns(toks)[i] != Patterns(toks)[j]
    {
      PatternsDistinct(toks, i, j);
    }
    GatherInserted(root, p, e, Patterns(toks));
    PatternsAreMatches(toks, p);
  }

  lemma {:induction false} GatherRemoved(l: Level, p: Pattern, e: Element, ps: seq<Pattern>)
    requires p != [] && NoDoubles(ps) && Removed(l, p, e).Some?
    ensures multiset(Gather(Removed(l, p, e).value, ps)) + (if p in ps then multiset{e} else multiset{}) ==
            multiset(Gather(l, ps))
    decreases |ps|
  {
    if ps != [] {
      RemovedAtOne(l, p, e, ps[0]);
      GatherRemoved(l, p, e, ps[1..]);
      assert p in ps <==> p == ps[0] || p in ps[1..];
      assert p == ps[0] ==> p !in ps[1..];
    }
  }

  lemma RemovedAtOne(l: Level, p: Pattern, e: Element, q: Pattern)
    requires p != [] && Removed(l, p, e).Some?
    ensures multiset(At(Removed(l, p, e).value, q)) + (if q == p then multiset{e} else multiset{}) == multiset(At(l, q))
  {
    RemovedAt(l, p, e, q);
    if q == p {
      RemovedFromList(At(l, p), e);
    }
  }

  /** After a removal a search finds the element once less if the pattern matches, and the same otherwise. */
  lemma RemovedFound(root: Level, p: Pattern, e: Element, toks: seq<string>)
    requires p != [] && toks != [] && Removed(root, p, e).Some?
    ensures multiset(Search(Some(Removed(root, p, e).value), toks, None, None)) + (if Matches(p, toks)
              then multiset{e} else multiset{}) ==
            multiset(Search(Some(root), toks, None, None))
  {
    SearchIsGather(root, toks);
    SearchIsGather(Removed(root, p, e).value, toks);
    forall i, j | 0 <= i < j < |Patterns(toks)|
      ensures Patterns(toks)[i] != Patterns(toks)[j]
    {
      PatternsDistinct(toks, i, j);
    }
    GatherRemoved(root, p, e, Patterns(toks));
    PatternsAreMatches(toks, p);
  }

  /** A removal is not seen by a search for a subject that the pattern does not match. */
  lemma RemovedUnseen(root: Level, p: Pattern, e: Element, toks: seq<string>)
    requires p != [] && toks != [] && Removed(root, p, e).Some? && !Matches(p, toks)
    ensures Search(Some(Removed(root, p, e).value), toks, None, None) == Search(Some(root), toks, None, None)
  {
    var l' := Removed(root, p, e).value;
    SearchIsGather(root, toks);
    SearchIsGather(l', toks);
    forall q | q in Patterns(toks)
      ensures At(l', q) == At(root, q)
    {
      PatternsAreMatches(toks, q);
      RemovedAt(root, p, e, q);
    }
    GatherSame(root, l', Patterns(toks));
  }
}
