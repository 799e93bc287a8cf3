/** The sublist with its cache of search results, as the object that its users update (util/sublist.go). */
module SublistCache {
  import opened Basics
  import opened Subjects
  import opened Sublist

  const CACHE_MAX := 1024

  datatype Error = NoError | InvalidSubject | NotFound

  /** Creates the nodes along a path, without an element. */
  function Created(l: Level, p: Pattern): Level
    decreases |p|
  {
    if p == [] then l
    else
      var n := GetOr(l.Child(p[0]));
      l.With(p[0], n.(next := Created(n.next, p[1..])))
  }

  lemma {:induction false} CreatedAt(l: Level, p: Pattern, q: Pattern)
    ensures At(Created(l, p), q) == At(l, q)
    decreases |p|
  {
    if p != [] && q != [] && q[0] == p[0] && |q| > 1 {
      CreatedAt(GetOr(l.Child(p[0])).next, p[1..], q[1..]);
      AtNew(q[1..]);
    }
  }

  lemma CreatedUnseen(l: Level, p: Pattern, toks: seq<string>)
    requires toks != []
    ensures Search(Some(Created(l, p)), toks, None, None) == Search(Some(l), toks, None, None)
  {
    SearchIsGather(l, toks);
    SearchIsGather(Created(l, p), toks);
    forall q | q in Patterns(toks)
      ensures At(Created(l, p), q) == At(l, q)
    {
      CreatedAt(l, p, q);
    }
    GatherSame(l, Created(l, p), Patterns(toks));
  }

  /** The tokens that an operation accepts: none is empty, and none comes after `>`. */
  predicate Accepted(toks: seq<string>) {
    NonEmptyTokens(toks) && forall i :: 0 <= i < |toks| - 1 ==> toks[i][0] != '>'
  }

  lemma {:induction false} ParseAppend(toks: seq<string>, t: string)
    requires NonEmptyTokens(toks) && t != ""
    ensures NonEmptyTokens(toks + [t]) && Parse(toks + [t]) == Parse(toks) + [Kind(t)]
    decreases |toks|
  {
    if toks == [] {
      assert (toks + [t])[1..] == [];
    } else {
      assert (toks + [t])[1..] == toks[1..] + [t];
      ParseAppend(toks[1..], t);
    }
  }

  lemma {:induction false} ValidIsAccepted(toks: seq<string>)
    requires ValidPatternTokens(toks)
    ensures Accepted(toks)
    decreases |toks|
  {
    if toks != [] {
      ValidIsAccepted(toks[1..]);
      assert forall i :: 0 < i < |toks| ==> toks[i] == toks[1..][i - 1];
      assert |toks| > 1 ==> toks[0][0] != '>';
    }
  }

  /** What the walk to a pattern's place meets first: a token that is not valid, or a place that is not there. */
  function WalkError(l: Option<Level>, toks: seq<string>, sfwc: bool): Error
    decreases |toks|
  {
    if toks == [] then NoError
    else if toks[0] == "" || sfwc then InvalidSubject
    else if l.None? then NotFound
    else WalkError(Next(l.value.Child(Kind(toks[0]))), toks[1..], toks[0][0] == '>')
  }

  /** The tokens are accepted, given whether `>` came before them. */
  predicate AcceptedAfter(toks: seq<string>, sfwc: bool)
    decreases |toks|
  {
    toks == [] || (toks[0] != "" && !sfwc && AcceptedAfter(toks[1..], toks[0][0] == '>'))
  }

  lemma {:induction false} AcceptedAfterIs(toks: seq<string>, sfwc: bool)
    ensures AcceptedAfter(toks, sfwc) <==> Accepted(toks) && (sfwc ==> toks == [])
    decreases |toks|
  {
    if toks != [] {
      AcceptedAfterIs(toks[1..], toks[0] != "" && toks[0][0] == '>');
      assert forall i :: 0 < i < |toks| ==> toks[i] == toks[1..][i - 1];
    }
  }

  lemma AcceptedIs(toks: seq<string>)
    ensures AcceptedAfter(toks, false) <==> Accepted(toks)
  {
    AcceptedAfterIs(toks, false);
  }

  /** Tokens that are all valid lead to the place, or there is nothing there. */
  lemma {:induction false} WalkErrorIs(l: Level, toks: seq<string>, sfwc: bool)
    ensures WalkError(Some(l), toks, sfwc) == NoError ==> AcceptedAfter(toks, sfwc)
    ensures WalkError(Some(l), toks, sfwc) == InvalidSubject ==> !AcceptedAfter(toks, sfwc)
    ensures WalkError(Some(l), toks, sfwc) == NotFound && AcceptedAfter(toks, sfwc) ==>
              NonEmptyTokens(toks) && At(l, Parse(toks)) == []
    decreases |toks|
  {
    AcceptedAfterIs(toks, sfwc);
    if toks != [] && toks[0] != "" && !sfwc {
      var next := Next(l.Child(Kind(toks[0])));
      if next.Some? {
        WalkErrorIs(next.value, toks[1..], toks[0][0] == '>');
      } else {
        var after := toks[0][0] == '>';
        assert |toks| == 1 ==> toks[1..] == [];
        assert toks[1..] != [] && AcceptedAfter(toks[1..], after) ==> toks[1..][0] != "" && !after;
        assert WalkError(None, toks[1..], after) == NoError ==> toks[1..] == [];
      }
    }
  }

  class SublistObject {
    var root: Level
    var cache: map<string, seq<Element>>
    var count: int

    /** What the cache has for a subject is what a search returns now, up to order. */
    ghost predicate Agrees()
      reads this
    {
      forall k :: k in cache && ValidSubject(k) ==> multiset(cache[k]) == multiset(Fresh(root, k))
    }

    constructor ()
      ensures root == NEW_LEVEL && cache == map[] && count == 0 && Agrees()
    {
      root, cache, count := NEW_LEVEL, map[], 0;
    }

    /** The walk down the trie: the pattern of the accepted tokens, and whether all were. */
    method Walk(tokens: seq<string>) returns (p: Pattern, ok: bool)
      ensures ok <==> Accepted(tokens)
      ensures ok ==> p == Parse(tokens)
    {
      p := [];
      var sfwc := false;
      for i := 0 to |tokens|
        invariant Accepted(tokens[..i]) && p == Parse(tokens[..i])
        invariant sfwc <==> i > 0 && tokens[i - 1][0] == '>'
      {
        var t := tokens[i];
        if |t| == 0 || sfwc {
          return p, false;
        }
        assert tokens[..i + 1] == tokens[..i] + [t];
        ParseAppend(tokens[..i], t);
        p := p + [Kind(t)];
        sfwc := t[0] == '>';
      }
      assert tokens[..|tokens|] == tokens;
      ok := true;
    }

    method Insert(subject: string, element: Element) returns (err: Error)
      modifies this
      ensures err == (if Accepted(Split(subject)) then NoError else InvalidSubject)
      ensures err == NoError ==> root == Inserted(old(root), Parse(Split(subject)), element) && count == old(count) + 1
      ensures err != NoError ==> count == old(count) && forall q :: At(root, q) == At(old(root), q)
      ensures cache.Keys == old(cache.Keys)
      ensures old(Agrees()) && (ValidPattern(subject) || err != NoError) ==> Agrees()
    {
      var tokens := Tokenize(subject);
      var p, ok := Walk(tokens);
      if !ok {
        forall q ensures At(Created(root, p), q) == At(root, q) { CreatedAt(root, p, q); }
        forall k: string ensures Fresh(Created(root, p), k) == Fresh(root, k) { CreatedUnseen(root, p, Split(k)); }
        root := Created(root, p);
        return InvalidSubject;
      }
      ghost var before := root;
      root := Inserted(root, p, element);
      AddToCache(subject, element);
      count := count + 1;
      if old(Agrees()) && ValidPattern(subject) {
        InsertKeeps(before, old(cache), cache, subject, element);
      }
      return NoError;
    }

    /** Adds the element to the cached results of the subjects that the pattern matches. */
    method AddToCache(subject: string, element: Element)
      modifies this`cache
      ensures cache.Keys == old(cache).Keys
      ensures forall k :: k in cache ==> cache[k] == old(cache)[k] + if Scan(subject, k) then [element] else []
    {
      var keys := cache.Keys;
      while keys != {}
        invariant keys <= cache.Keys == old(cache).Keys
        invariant forall k :: k in keys ==> cache[k] == old(cache)[k]
        invariant forall k :: k in cache && k !in keys ==>
                    cache[k] == old(cache)[k] + if Scan(subject, k) then [element] else []
        decreases keys
      {
        var k :| k in keys;
        keys := keys - {k};
        var m := MatchLiteral(k, subject);
        if m {
          cache := cache[k := cache[k] + [element]];
        }
      }
    }

    /** Drops the cached results of the subjects that the pattern matches. */
    method RemoveFromCache(subject: string)
      modifies this`cache
      ensures forall k :: k in cache <==> k in old(cache) && !Scan(subject, k)
      ensures forall k :: k in cache ==> cache[k] == old(cache)[k]
    {
      var keys := cache.Keys;
      while keys != {}
        invariant keys <= old(cache).Keys
        invariant forall k :: k in cache <==> k in old(cache) && (k in keys || !Scan(subject, k))
        invariant forall k :: k in cache ==> cache[k] == old(cache)[k]
        decreases keys
      {
        var k :| k in keys;
        keys := keys - {k};
        var m := MatchLiteral(k, subject);
        if m {
          cache := cache - {k};
        }
      }
    }

    /** A cached result, else a search whose result is then cached. */
    method Match(subject: string) returns (r: seq<Element>)
      modifies this`cache
      ensures subject in old(cache) ==> r == old(cache)[subject] && cache == old(cache)
      ensures subject !in old(cache) ==> r == Fresh(root, subject) == Gather(root, Patterns(Split(subject)))
      ensures old(Agrees()) ==> Agrees()
      ensures old(Agrees()) && ValidSubject(subject) ==> multiset(r) == multiset(Fresh(root, subject))
      ensures cache.Keys <= old(cache.Keys) + {subject} && (|old(cache)| <= CACHE_MAX ==> |cache| <= CACHE_MAX)
      ensures forall k :: k in cache ==> cache[k] == if k in old(cache) then old(cache)[k] else r
    {
      if subject in cache {
        return cache[subject];
      }
      r := SearchTrie(subject);
      AddResult(subject, r);
    }

    method SearchTrie(subject: string) returns (r: seq<Element>)
      ensures r == Fresh(root, subject) == Gather(root, Patterns(Split(subject)))
    {
      var tokens := Tokenize(subject);
      r := MatchLevel(Some(root), tokens, []);
      SearchIsGather(root, tokens);
    }

    /** Caches a result, and drops another one if there are too many. */
    method AddResult(subject: string, r: seq<Element>)
      modifies this`cache
      ensures cache.Keys <= old(cache.Keys) + {subject} && (|old(cache)| <= CACHE_MAX ==> |cache| <= CACHE_MAX)
      ensures forall k :: k in cache ==> cache[k] == if k == subject then r else old(cache)[k]
    {
      cache := cache[subject := r];
      CacheSize(old(cache), subject, r);
      if |cache| > CACHE_MAX {
        var k :| k in cache;
        OneLess(cache, k);
        cache := cache - {k};
      }
    }

    /** The walk down the trie to the place of a pattern. */
    method WalkDown(tokens: seq<string>) returns (err: Error)
      ensures err == WalkError(Some(root), tokens, false)
    {
      var l, sfwc := Some(root), false;
      assert tokens[0..] == tokens;
      for i := 0 to |tokens|
        invariant WalkError(l, tokens[i..], sfwc) == WalkError(Some(root), tokens, false)
      {
        var t := tokens[i];
        if |t| == 0 || sfwc {
          return InvalidSubject;
        }
        if l.None? {
          return NotFound;
        }
        assert tokens[i..][1..] == tokens[i + 1..];
        l := Next(l.value.Child(Kind(t)));
        sfwc := t[0] == '>';
      }
      return NoError;
    }

    /** Removes one occurrence of the element from its pattern, if there. */
    method Remove(subject: string, element: Element) returns (err: Error)
      modifies this
      ensures err == NoError <==> Accepted(Split(subject)) && element in At(old(root), Parse(Split(subject)))
      ensures err != NoError ==> err == if WalkError(Some(old(root)), Split(subject), false) == InvalidSubject
              then InvalidSubject else NotFound
      ensures err == NoError ==>
                Removed(old(root), Parse(Split(subject)), element) == Some(root) && count == old(count) - 1
      ensures err != NoError ==> root == old(root) && count == old(count) && cache == old(cache)
      ensures old(Agrees()) && (ValidPattern(subject) || err != NoError) ==> Agrees()
    {
      var tokens := Tokenize(subject);
      err := WalkDown(tokens);
      WalkErrorIs(root, tokens, false);
      AcceptedIs(tokens);
      if err != NoError {
        return;
      }
      var p := Parse(tokens);
      RemovedAt(root, p, element, p);
      var l := Removed(root, p, element);
      if l.None? {
        return NotFound;
      }
      ghost var before := root;
      root := l.value;
      count := count - 1;
      RemoveFromCache(subject);
      if old(Agrees()) && ValidPattern(subject) {
        RemoveKeeps(before, old(cache), cache, subject, element);
      }
      return NoError;
    }
  }

  lemma ScanIs(subject: string, k: string)
    requires ValidPattern(subject) && ValidSubject(k)
    ensures Accepted(Split(subject))
    ensures Scan(subject, k) <==> Matches(Parse(Split(subject)), Split(k))
  {
    ValidIsAccepted(Split(subject));
    ScanIsMatch(subject, k);
  }

  lemma InsertKeeps(root: Level, cache: map<string, seq<Element>>, cache': map<string, seq<Element>>, subject: string,
                    e: Element)
    requires ValidPattern(subject) && Accepted(Split(subject)) && cache'.Keys == cache.Keys
    requires forall k :: k in cache' ==> cache'[k] == cache[k] + if Scan(subject, k) then [e] else []
    requires forall k :: k in cache && ValidSubject(k) ==> multiset(cache[k]) == multiset(Fresh(root, k))
    ensures forall k :: k in cache' && ValidSubject(k) ==>
              multiset(cache'[k]) == multiset(Fresh(Inserted(root, Parse(Split(subject)), e), k))
  {
    forall k | k in cache' && ValidSubject(k)
      ensures multiset(cache'[k]) == multiset(Fresh(Inserted(root, Parse(Split(subject)), e), k))
    {
      ScanIs(subject, k);
      InsertedFound(root, Parse(Split(subject)), e, Split(k));
    }
  }

  lemma RemoveKeeps(root: Level, cache: map<string, seq<Element>>, cache': map<string, seq<Element>>, subject: string,
                    e: Element)
    requires ValidPattern(subject) && Accepted(Split(subject)) && Removed(root, Parse(Split(subject)), e).Some?
    requires forall k :: k in cache' ==> k in cache && !Scan(subject, k) && cache'[k] == cache[k]
    requires forall k :: k in cache && ValidSubject(k) ==> multiset(cache[k]) == multiset(Fresh(root, k))
    ensures forall k :: k in cache' && ValidSubject(k) ==>
              multiset(cache'[k]) == multiset(Fresh(Removed(root, Parse(Split(subject)), e).value, k))
  {
    forall k | k in cache' && ValidSubject(k)
      ensures multiset(cache'[k]) == multiset(Fresh(Removed(root, Parse(Split(subject)), e).value, k))
    {
      ScanIs(subject, k);
      RemovedUnseen(root, Parse(Split(subject)), e, Split(k));
    }
  }

  lemma CacheSize(cache: map<string, seq<Element>>, k: string, r: seq<Element>)
    ensures |cache[k := r]| <= |cache| + 1
  {
    assert cache[k := r].Keys == cache.Keys + {k};
    assert |cache[k := r]| == |cache[k := r].Keys|;
  }

  lemma OneLess(cache: map<string, seq<Element>>, k: string)
    requires k in cache
    ensures |cache - {k}| == |cache| - 1
  {
    assert (cache - {k}).Keys == cache.Keys - {k};
    assert |cache - {k}| == |(cache - {k}).Keys|;
  }

  // ---------- Runs ----------

  datatype Op = Insert(subject: string, e: Element) | Remove(subject: string, e: Element) | Match(subject: string)

  predicate ValidOp(op: Op) {
    !op.Match? ==> ValidPattern(op.subject)
  }

  predicate ValidOps(ops: seq<Op>) {
    ops == [] || (ValidOps(ops[..|ops| - 1]) && ValidOp(ops[|ops| - 1]))
  }

  function PatternOf(op: Op): (p: Pattern)
    requires ValidOp(op) && !op.Match?
    ensures p != []
  {
    ValidIsNonEmpty(Split(op.subject));
    Parse(Split(op.subject))
  }

  /** What an operation does to the trie. */
  function RootNext(root: Level, op: Op): Level
    requires ValidOp(op)
  {
    match op
    case Insert(_, e) => Inserted(root, PatternOf(op), e)
    case Remove(_, e) => (match Removed(root, PatternOf(op), e) case Some(l) => l case None => root)
    case Match(_) => root
  }

  method Do(s: SublistObject, op: Op)
    requires s.Agrees() && ValidOp(op)
    modifies s
    ensures s.Agrees() && s.root == RootNext(old(s.root), op)
  {
    if op.Insert? {
      ValidIsAccepted(Split(op.subject));
      var err := s.Insert(op.subject, op.e);
    } else if op.Remove? {
      ValidIsAccepted(Split(op.subject));
      RemovedAt(s.root, PatternOf(op), op.e, PatternOf(op));
      var err := s.Remove(op.subject, op.e);
    } else {
      var r := s.Match(op.subject);
    }
  }

  // ---------- What is inserted and not removed ----------

  /** The elements inserted under a pattern and not removed. */
  function Held(ops: seq<Op>, p: Pattern): multiset<Element>
    requires ValidOps(ops)
  {
    if ops == [] then multiset{}
    else
      var before, op := ops[..|ops| - 1], ops[|ops| - 1];
      var h := Held(before, p);
      if op.Match? || PatternOf(op) != p then h
      else if op.Insert? then h + multiset{op.e} else h - multiset{op.e}
  }

  /** The elements inserted and not removed whose pattern matches the tokens. */
  function Matching(ops: seq<Op>, toks: seq<string>): multiset<Element>
    requires ValidOps(ops)
  {
    if ops == [] then multiset{}
    else
      var before, op := ops[..|ops| - 1], ops[|ops| - 1];
      var m := Matching(before, toks);
      if op.Match? || !Matches(PatternOf(op), toks) then m
      else if op.Insert? then m + multiset{op.e}
      else if op.e in Held(before, PatternOf(op)) then m - multiset{op.e} else m
  }

  function RootAfter(ops: seq<Op>): Level
    requires ValidOps(ops)
  {
    if ops == [] then NEW_LEVEL else RootNext(RootAfter(ops[..|ops| - 1]), ops[|ops| - 1])
  }

  /** The trie holds under every pattern what was inserted and not removed. */
  lemma {:induction false} HeldIs(ops: seq<Op>, p: Pattern)
    requires ValidOps(ops) && p != []
    ensures multiset(At(RootAfter(ops), p)) == Held(ops, p)
    decreases |ops|
  {
    if ops == [] {
      AtNew(p);
    } else {
      var root, op := RootAfter(ops[..|ops| - 1]), ops[|ops| - 1];
      HeldIs(ops[..|ops| - 1], p);
      if op.Insert? {
        InsertedAt(root, PatternOf(op), op.e, p);
      } else if op.Remove? {
        RemovedAt(root, PatternOf(op), op.e, p);
        if op.e in At(root, p) {
          RemovedFromList(At(root, p), op.e);
        }
      }
    }
  }

  lemma InsertSeen(root: Level, op: Op, toks: seq<string>)
    requires op.Insert? && ValidOp(op) && toks != []
    ensures multiset(Search(Some(RootNext(root, op)), toks, None, None)) ==
            multiset(Search(Some(root), toks, None, None))
            + if Matches(PatternOf(op), toks) then multiset{op.e} else multiset{}
  {
    InsertedFound(root, PatternOf(op), op.e, toks);
  }

  lemma RemoveSeen(root: Level, op: Op, toks: seq<string>)
    requires op.Remove? && ValidOp(op) && toks != []
    ensures multiset(Search(Some(RootNext(root, op)), toks, None, None)) ==
            multiset(Search(Some(root), toks, None, None))
            - if Matches(PatternOf(op), toks) && op.e in At(root, PatternOf(op)) then multiset{op.e} else multiset{}
  {
    RemovedAt(root, PatternOf(op), op.e, PatternOf(op));
    if Removed(root, PatternOf(op), op.e).Some? {
      RemovedFound(root, PatternOf(op), op.e, toks);
    }
  }

  /** A search finds what was inserted and not removed under the patterns that match. */
  lemma {:induction false} MatchingIs(ops: seq<Op>, toks: seq<string>)
    requires ValidOps(ops) && toks != []
    ensures multiset(Search(Some(RootAfter(ops)), toks, None, None)) == Matching(ops, toks)
    decreases |ops|
  {
    if ops == [] {
      NothingFound(toks);
    } else {
      MatchingNext(ops, toks);
      MatchingIs(ops[..|ops| - 1], toks);
    }
  }

  lemma MatchingNext(ops: seq<Op>, toks: seq<string>)
    requires ValidOps(ops) && toks != [] && ops != []
    ensures multiset(Search(Some(RootAfter(ops[..|ops| - 1])), toks, None, None)) ==
            Matching(ops[..|ops| - 1], toks) ==>
              multiset(Search(Some(RootAfter(ops)), toks, None, None)) == Matching(ops, toks)
  {
    var before, op := ops[..|ops| - 1], ops[|ops| - 1];
    if op.Insert? {
      InsertSeen(RootAfter(before), op, toks);
    } else if op.Remove? {
      HeldIs(before, PatternOf(op));
      RemoveSeen(RootAfter(before), op, toks);
    }
  }

  lemma NothingFound(toks: seq<string>)
    requires toks != []
    ensures Search(Some(NEW_LEVEL), toks, None, None) == []
  {
    SearchIsGather(NEW_LEVEL, toks);
    NothingIn(Patterns(toks));
  }

  lemma {:induction false} NothingIn(ps: seq<Pattern>)
    ensures Gather(NEW_LEVEL, ps) == []
    decreases |ps|
  {
    if ps != [] {
      AtNew(ps[0]);
      NothingIn(ps[1..]);
    }
  }

  /**
   After every run on valid names, a search returns what was inserted and not removed under the patterns that match, and
   each cached result is what a search returns now, up to order.
   */
  method Run(ops: seq<Op>) returns (s: SublistObject)
    requires ValidOps(ops)
    ensures s.root == RootAfter(ops)
    ensures forall k :: ValidSubject(k) ==> multiset(Fresh(s.root, k)) == Matching(ops, Split(k))
    ensures forall k :: k in s.cache && ValidSubject(k) ==> multiset(s.cache[k]) == Matching(ops, Split(k))
  {
    s := new SublistObject();
    for i := 0 to |ops|
      invariant fresh(s) && s.Agrees() && ValidOps(ops[..i]) && s.root == RootAfter(ops[..i])
    {
      assert ops[..i + 1][..i] == ops[..i];
      ValidPrefix(ops, i + 1);
      Do(s, ops[i]);
    }
    assert ops[..|ops|] == ops;
    forall k | ValidSubject(k) ensures multiset(Fresh(s.root, k)) == Matching(ops, Split(k)) {
      MatchingIs(ops, Split(k));
    }
  }

  lemma {:induction false} ValidPrefix(ops: seq<Op>, i: nat)
    requires ValidOps(ops) && i <= |ops|
    ensures ValidOps(ops[..i])
    decreases |ops|
  {
    if i < |ops| {
      assert ops[..|ops| - 1][..i] == ops[..i];
      ValidPrefix(ops[..|ops| - 1], i);
    } else {
      assert ops[..i] == ops;
    }
  }
}
