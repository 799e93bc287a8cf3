/**
 The limits of a store, and how its per-channel limits are completed and looked up (stores/limits.go, stores/common.go).
 */
module Limits {
  import opened Basics
  import opened Subjects
  import opened SubjectNames
  import opened Sublist
  import opened SublistCache
  import opened SubjectList
  import opened Inheritance

  /** Element `i` of the trie stands for the pattern `infos[i]`, and nothing else is there. */
  ghost predicate Holds(root: Level, infos: seq<Pattern>) {
    && (forall i :: 0 <= i < |infos| ==> At(root, infos[i]) == [i])
    && (forall q :: q !in infos ==> At(root, q) == [])
  }

  function Named(infos: seq<Pattern>, r: seq<Element>): (ps: seq<Pattern>)
    requires forall k :: 0 <= k < |r| ==> 0 <= r[k] < |infos|
    ensures |ps| == |r| && forall k :: 0 <= k < |r| ==> ps[k] == infos[r[k]]
  {
    seq(|r|, k requires 0 <= k < |r| => infos[r[k]])
  }

  predicate AllIn(r: seq<Element>, n: nat) {
    forall k :: 0 <= k < |r| ==> 0 <= r[k] < n
  }

  lemma NamedPush(infos: seq<Pattern>, i: nat, r: seq<Element>)
    requires i < |infos| && AllIn(r, |infos|)
    ensures AllIn([i] + r, |infos|) && Named(infos, [i] + r) == [infos[i]] + Named(infos, r)
  {
  }

  /** What the trie has for one pattern. */
  lemma GatherFirst(root: Level, infos: seq<Pattern>, ps: seq<Pattern>)
    requires Holds(root, infos) && ps != []
    ensures ps[0] !in ToSet(infos) ==> Gather(root, ps) == Gather(root, ps[1..])
    ensures ps[0] in ToSet(infos) ==>
              exists i :: 0 <= i < |infos| && infos[i] == ps[0] && Gather(root, ps) == [i] + Gather(root, ps[1..])
  {
    if ps[0] in infos {
      var i :| 0 <= i < |infos| && infos[i] == ps[0];
      assert At(root, infos[i]) == [i];
    }
  }

  /** A search returns the chain of the subject. */
  lemma {:induction false} GatherIsFilter(root: Level, infos: seq<Pattern>, ps: seq<Pattern>)
    requires Holds(root, infos)
    ensures forall k :: 0 <= k < |Gather(root, ps)| ==> 0 <= Gather(root, ps)[k] < |infos|
    ensures Named(infos, Gather(root, ps)) == Filter(ps, ToSet(infos))
    decreases |ps|
  {
    if ps != [] {
      GatherIsFilter(root, infos, ps[1..]);
      GatherFirst(root, infos, ps);
      if ps[0] in ToSet(infos) {
        var i :| 0 <= i < |infos| && infos[i] == ps[0] && Gather(root, ps) == [i] + Gather(root, ps[1..]);
        NamedPush(infos, i, Gather(root, ps[1..]));
      }
    }
  }

  // ---------- Inheritance ----------

  /** The limits during inheritance: completed for the processed patterns, unchanged for the others. */
  ghost predicate Partly(own: map<Pattern, ChannelLimits>, want: map<Pattern, ChannelLimits>,
                         cur: map<Pattern, ChannelLimits>, processed: set<Pattern>) {
    && cur.Keys == own.Keys == want.Keys && processed <= own.Keys
    && forall p :: p in own ==> cur[p] == if p in processed then want[p] else own[p]
  }

  /** Pattern `i` of a search result takes what it lacks from the one before it. */
  ghost predicate Follows(own: map<Pattern, ChannelLimits>, global: ChannelLimits, want: map<Pattern, ChannelLimits>,
                          r: seq<Pattern>, i: nat) {
    && i < |r| && r[i] in own && r[i] in want && (i > 0 ==> r[i - 1] in want)
    && want[r[i]] == Inherit(own[r[i]], if i == 0 then global else want[r[i - 1]])
  }

  /** Completes the limits of the patterns in one search result. */
  method InheritAlong(r: seq<Pattern>, own: map<Pattern, ChannelLimits>, global: ChannelLimits,
                      ghost want: map<Pattern, ChannelLimits>, cur0: map<Pattern, ChannelLimits>,
                          processed0: set<Pattern>)
    returns (cur: map<Pattern, ChannelLimits>, processed: set<Pattern>)
    requires Partly(own, want, cur0, processed0)
    requires forall i :: 0 <= i < |r| ==> r[i] in own && (r[i] !in processed0 ==> Follows(own, global, want, r, i))
    ensures Partly(own, want, cur, processed)
    ensures processed0 <= processed && forall p :: p in r ==> p in processed
  {
    cur, processed := cur0, processed0;
    for i := 0 to |r|
      invariant Partly(own, want, cur, processed)
      invariant processed0 <= processed && forall j :: 0 <= j < i ==> r[j] in processed
    {
      var p := r[i];
      if p !in processed {
        var parent := if i == 0 then global else cur[r[i - 1]];
        cur := cur[p := Inherit(cur[p], parent)];
        processed := processed + {p};
      }
    }
  }

  lemma ParentInChain(among: set<Pattern>, r: seq<Pattern>, i: nat)
    requires Inheritance.Names(among) && i < |r| && r[i] in among && Chain(among, Texts(r[i])) == r
    ensures Parent(among, r[i]) == if i == 0 then None else Some(r[i - 1])
  {
    ChainSorted(among, Texts(r[i]));
    SortedPosition(r, i);
  }

  ghost function AllResolved(own: map<Pattern, ChannelLimits>, global: ChannelLimits): map<Pattern, ChannelLimits>
    requires Inheritance.Names(own.Keys)
  {
    map p | p in own :: Resolved(own, global, p)
  }

  lemma ResolvedFollows(own: map<Pattern, ChannelLimits>, global: ChannelLimits, r: seq<Pattern>, i: nat)
    requires Inheritance.Names(own.Keys) && i < |r| && r[i] in own && Chain(own.Keys, Texts(r[i])) == r
    ensures Follows(own, global, AllResolved(own, global), r, i)
  {
    ParentInChain(own.Keys, r, i);
    if i > 0 {
      assert r[i - 1] in r;
    }
  }

  /**
   What the search for the next configured name finds: the patterns not yet processed have that very result as their
   chain.
   */
  lemma UnprocessedFollows(own: map<Pattern, ChannelLimits>, global: ChannelLimits, channels: seq<Pattern>, i: nat,
                           processed: set<Pattern>)
    requires Inheritance.Names(own.Keys) && i < |channels| && Ordered(channels)
    requires forall p :: p in own <==> p in channels
    requires forall j :: 0 <= j < i ==> channels[j] in processed
    ensures var r := Chain(own.Keys, Texts(channels[i]));
            forall k :: 0 <= k < |r| ==>
                r[k] in own && (r[k] !in processed ==> Follows(own, global, AllResolved(own, global), r, k))
  {
    var r := Chain(own.Keys, Texts(channels[i]));
    forall k | 0 <= k < |r|
      ensures r[k] in own && (r[k] !in processed ==> Follows(own, global, AllResolved(own, global), r, k))
    {
      assert r[k] in r;
      if r[k] !in processed {
        UnprocessedSameChain(own.Keys, channels, i, processed, r[k]);
        ResolvedFollows(own, global, r, k);
      }
    }
  }

  lemma UnprocessedSameChain(among: set<Pattern>, channels: seq<Pattern>, i: nat, processed: set<Pattern>, p: Pattern)
    requires Inheritance.Names(among) && i < |channels| && Ordered(channels)
    requires channels[i] in among && p in channels
    requires forall j :: 0 <= j < i ==> channels[j] in processed
    requires p in Chain(among, Texts(channels[i])) && p !in processed
    ensures Chain(among, Texts(p)) == Chain(among, Texts(channels[i]))
  {
    var k :| 0 <= k < |channels| && channels[k] == p;
    if k != i {
      SameChain(among, channels[i], p);
    }
  }

  /** The configured names, as the trie holds them before any search. */
  ghost predicate Configured(root: Level, infos: seq<Pattern>, names: set<Pattern>) {
    && Inheritance.Names(names) && Holds(root, infos) && ToSet(infos) == names
    && forall p :: Listed(root, p) <==> p in names
  }

  lemma SearchFindsChain(root: Level, infos: seq<Pattern>, names: set<Pattern>, cn: Pattern)
    requires Inheritance.Names(names) && Holds(root, infos) && ToSet(infos) == names && cn in names
    ensures var r := Gather(root, Patterns(Split(Text(cn))));
            && (forall k :: 0 <= k < |r| ==> 0 <= r[k] < |infos|)
            && Named(infos, r) == Chain(names, Texts(cn)) && cn in Chain(names, Texts(cn))
  {
    TextRoundTrip(cn);
    GatherIsFilter(root, infos, Patterns(Texts(cn)));
    InOwnChain(names, cn);
  }

  method SearchNew(sub: SublistObject, subject: string) returns (r: seq<Element>)
    requires subject !in sub.cache
    modifies sub`cache
    ensures r == Gather(sub.root, Patterns(Split(subject))) && sub.cache.Keys <= old(sub.cache.Keys) + {subject}
  {
    r := sub.Match(subject);
  }

  /** Searches for a configured name: the result is its chain. */
  method SearchName(sub: SublistObject, infos: seq<Pattern>, ghost names: set<Pattern>, cn: Pattern)
      returns (r: seq<Pattern>)
    requires Inheritance.Names(names) && Holds(sub.root, infos) && ToSet(infos) == names && cn in names
             && Text(cn) !in sub.cache
    modifies sub`cache
    ensures sub.cache.Keys <= old(sub.cache.Keys) + {Text(cn)}
    ensures r == Chain(names, Texts(cn)) && cn in r
  {
    SearchFindsChain(sub.root, infos, names, cn);
    var found := SearchNew(sub, Text(cn));
    r := Named(infos, found);
  }

  /** Only the names searched so far can be in the cache. */
  ghost predicate CachedSoFar(cached: set<string>, channels: seq<Pattern>, i: nat)
  {
    i <= |channels| && forall k :: k in cached ==> exists j :: 0 <= j < i && channels[j] != [] && k == Text(channels[j])
  }

  /** The listing of the configured names, with the first `i` done. */
  ghost predicate Progress(names: set<Pattern>, channels: seq<Pattern>, i: nat, processed: set<Pattern>,
                           cached: set<string>) {
    && i <= |channels| && Ordered(channels) && Inheritance.Names(names)
    && (forall j :: 0 <= j < |channels| ==> channels[j] in names)
    && (forall j :: 0 <= j < i ==> channels[j] in processed)
    && CachedSoFar(cached, channels, i)
  }

  /** One turn: what the search for the next name finds is completed. */
  method InheritFor(sub: SublistObject, infos: seq<Pattern>, own: map<Pattern, ChannelLimits>, global: ChannelLimits,
                    channels: seq<Pattern>, i: nat,
                    ghost want: map<Pattern, ChannelLimits>, cur0: map<Pattern, ChannelLimits>,
                        processed0: set<Pattern>)
    returns (cur: map<Pattern, ChannelLimits>, processed: set<Pattern>)
    requires i < |channels| && Progress(own.Keys, channels, i, processed0, sub.cache.Keys)
    requires forall p :: p in own ==> p in channels
    requires want == AllResolved(own, global) && Partly(own, want, cur0, processed0)
    requires Holds(sub.root, infos) && ToSet(infos) == own.Keys
    modifies sub`cache
    ensures Partly(own, want, cur, processed) && processed0 <= processed && channels[i] in processed
    ensures sub.cache.Keys <= old(sub.cache.Keys) + {Text(channels[i])}
  {
    NotYetCached(channels, i, sub.cache.Keys);
    var r := SearchName(sub, infos, own.Keys, channels[i]);
    cur, processed := InheritResult(r, own, global, channels, i, want, cur0, processed0);
  }

  /** What is found for a name is completed; a literal that was done has nothing else to complete. */
  method InheritResult(r: seq<Pattern>, own: map<Pattern, ChannelLimits>, global: ChannelLimits,
                       ghost channels: seq<Pattern>, ghost i: nat,
                       ghost want: map<Pattern, ChannelLimits>, cur0: map<Pattern, ChannelLimits>,
                           processed0: set<Pattern>)
    returns (cur: map<Pattern, ChannelLimits>, processed: set<Pattern>)
    requires Inheritance.Names(own.Keys) && i < |channels| && Ordered(channels) && channels[i] in own
             && forall p :: p in own <==> p in channels
    requires r == Chain(own.Keys, Texts(channels[i])) && channels[i] in r
    requires forall j :: 0 <= j < i ==> channels[j] in processed0
    requires want == AllResolved(own, global) && Partly(own, want, cur0, processed0)
    ensures Partly(own, want, cur, processed) && processed0 <= processed && channels[i] in processed
  {
    cur, processed := cur0, processed0;
    if IsLiteral(r[0]) && r[0] in processed0 {
      LiteralAlone(own.Keys, Texts(channels[i]));
    } else {
      UnprocessedFollows(own, global, channels, i, processed0);
      cur, processed := InheritAlong(r, own, global, want, cur0, processed0);
    }
  }

  /** Goes through the configured patterns from the widest to the narrowest. */
  method ApplyInheritance(sub: SublistObject, infos: seq<Pattern>, own: map<Pattern, ChannelLimits>,
                          global: ChannelLimits)
    returns (cur: map<Pattern, ChannelLimits>)
    requires Configured(sub.root, infos, own.Keys) && sub.cache == map[]
    modifies sub`cache
    ensures cur == AllResolved(own, global)
  {
    var channels := ListedNames(sub, own.Keys);
    cur := own;
    var processed := {};
    ghost var want := AllResolved(own, global);
    for i := 0 to |channels|
      invariant Partly(own, want, cur, processed)
      invariant Progress(own.Keys, channels, i, processed, sub.cache.Keys)
    {
      ghost var was, cached := processed, sub.cache.Keys;
      cur, processed := InheritFor(sub, infos, own, global, channels, i, want, cur, processed);
      ProgressStep(own.Keys, channels, i, was, cached, processed, sub.cache.Keys);
    }
    AllProcessed(own, want, cur, processed, channels);
  }

  lemma ProgressStep(names: set<Pattern>, channels: seq<Pattern>, i: nat, processed: set<Pattern>, cached: set<string>,
                     processed': set<Pattern>, cached': set<string>)
    requires i < |channels| && Progress(names, channels, i, processed, cached)
    requires processed <= processed' && channels[i] in processed' && cached' <= cached + {Text(channels[i])}
    ensures Progress(names, channels, i + 1, processed', cached')
  {
    forall k | k in cached' ensures exists j :: 0 <= j < i + 1 && channels[j] != [] && k == Text(channels[j]) {
      if k in cached {
        var j :| 0 <= j < i && channels[j] != [] && k == Text(channels[j]);
      }
    }
  }

  lemma AllProcessed(own: map<Pattern, ChannelLimits>, want: map<Pattern, ChannelLimits>,
                     cur: map<Pattern, ChannelLimits>, processed: set<Pattern>, channels: seq<Pattern>)
    requires Partly(own, want, cur, processed)
    requires forall j :: 0 <= j < |channels| ==> channels[j] in processed
    requires forall p :: p in own ==> p in channels
    ensures cur == want
  {
  }

  method ListedNames(sub: SublistObject, ghost names: set<Pattern>) returns (channels: seq<Pattern>)
    requires forall p :: Listed(sub.root, p) <==> p in names
    ensures Ordered(channels) && (forall j :: 0 <= j < |channels| ==> channels[j] in names)
            && forall p :: p in names ==> p in channels
  {
    channels := GetSubjects(sub.root);
    assert forall j :: 0 <= j < |channels| ==> channels[j] in channels;
  }

  /** Each name is searched once, so that the result comes from the trie and not from the cache. */
  lemma NotYetCached(channels: seq<Pattern>, i: nat, cached: set<string>)
    requires i < |channels| && Ordered(channels)
    requires forall j :: 0 <= j < |channels| ==> channels[j] != [] && WellFormed(channels[j]) && Clean(channels[j])
    requires CachedSoFar(cached, channels, i)
    ensures Text(channels[i]) !in cached
  {
    if Text(channels[i]) in cached {
      var j :| 0 <= j < i && Text(channels[i]) == Text(channels[j]);
      TextRoundTrip(channels[i]);
      TextRoundTrip(channels[j]);
    }
  }
}
