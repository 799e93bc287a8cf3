/** Validation of a store's limits and the lookup of a channel's own (stores/limits.go, stores/common.go). */
module StoreLimits {
  import opened Basics
  import opened Subjects
  import opened SubjectNames
  import opened Sublist
  import opened SublistCache
  import opened SubjectList
  import opened Inheritance
  import opened Limits

  datatype BuildError = NoBuildError | NegativeLimit | InvalidName(name: string) | TooManyChannels

  predicate ValidName(cn: string) {
    '/' !in cn && ValidPattern(cn)
  }

  predicate LiteralName(cn: string) {
    '*' !in cn && '>' !in cn
  }

  function NameOf(cn: string): (p: Pattern)
    requires ValidName(cn)
    ensures p != [] && WellFormed(p) && Clean(p) && Text(p) == cn && Texts(p) == Split(cn)
  {
    NameRoundTrip(cn);
    Parse(Split(cn))
  }

  /** `own` is `perChannel` with its names read as patterns. */
  ghost predicate Keyed(perChannel: map<string, ChannelLimits>, own: map<Pattern, ChannelLimits>) {
    && (forall cn :: cn in perChannel ==> ValidName(cn) && NameOf(cn) in own && own[NameOf(cn)] == perChannel[cn])
    && (forall p :: p in own ==> p != [] && WellFormed(p) && Clean(p) && Text(p) in perChannel)
  }

  lemma KeyedStep(perChannel: map<string, ChannelLimits>, own: map<Pattern, ChannelLimits>, cn: string,
                  cl: ChannelLimits)
    requires Keyed(perChannel, own) && cn !in perChannel && ValidName(cn)
    ensures NameOf(cn) !in own && Keyed(perChannel[cn := cl], own[NameOf(cn) := cl])
  {
    var p, more, own' := NameOf(cn), perChannel[cn := cl], own[NameOf(cn) := cl];
    forall c | c in more ensures ValidName(c) && NameOf(c) in own' && own'[NameOf(c)] == more[c] {
      if c != cn {
        OtherName(c, cn);
      }
    }
    forall q | q in own' ensures q != [] && WellFormed(q) && Clean(q) && Text(q) in more {
      if q != p {
        assert q in own;
      }
    }
  }

  lemma OtherName(a: string, b: string)
    requires ValidName(a) && ValidName(b) && a != b
    ensures NameOf(a) != NameOf(b)
  {
    assert Text(NameOf(a)) == a && Text(NameOf(b)) == b;
  }

  lemma {:induction false} NothingListed(p: Pattern)
    ensures !Listed(NEW_LEVEL, p) && At(NEW_LEVEL, p) == []
  {
  }

  lemma ConfiguredEmpty()
    ensures Configured(NEW_LEVEL, [], {})
  {
    forall p ensures !Listed(NEW_LEVEL, p) && At(NEW_LEVEL, p) == [] {
      NothingListed(p);
    }
  }

  lemma ConfiguredStep(root: Level, infos: seq<Pattern>, names: set<Pattern>, p: Pattern)
    requires Configured(root, infos, names) && p !in names && p != [] && WellFormed(p) && Clean(p)
    ensures Configured(Inserted(root, p, |infos|), infos + [p], names + {p})
  {
    var r := Inserted(root, p, |infos|);
    forall q ensures Listed(r, q) <==> q in names + {p} {
      InsertedListed(root, p, |infos|, q);
    }
    HoldsStep(root, infos, p);
    assert ToSet(infos + [p]) == names + {p} by {
      assert forall i :: 0 <= i < |infos| ==> (infos + [p])[i] == infos[i];
      assert (infos + [p])[|infos|] == p;
    }
  }

  lemma HoldsStep(root: Level, infos: seq<Pattern>, p: Pattern)
    requires Holds(root, infos) && p !in ToSet(infos) && p != []
    ensures Holds(Inserted(root, p, |infos|), infos + [p])
  {
    var r, more := Inserted(root, p, |infos|), infos + [p];
    assert p !in infos;
    forall i | 0 <= i < |more| ensures At(r, more[i]) == [i] {
      InsertedAt(root, p, |infos|, more[i]);
      assert i < |infos| ==> infos[i] in infos;
    }
    forall q | q !in more ensures At(r, q) == [] {
      InsertedAt(root, p, |infos|, q);
    }
  }

  method InsertName(sub: SublistObject, infos: seq<Pattern>, ghost names: set<Pattern>, cn: string)
    requires Configured(sub.root, infos, names) && sub.cache == map[] && ValidName(cn) && NameOf(cn) !in names
    modifies sub
    ensures Configured(sub.root, infos + [NameOf(cn)], names + {NameOf(cn)}) && sub.cache == map[]
  {
    ConfiguredStep(sub.root, infos, names, NameOf(cn));
    AcceptedName(cn);
    var err := sub.Insert(cn, |infos|);
  }

  lemma AcceptedName(cn: string)
    requires ValidName(cn)
    ensures Accepted(Split(cn))
  {
    ValidIsAccepted(Split(cn));
  }

  method IsChannelNameLiteral(channel: string) returns (r: bool)
    ensures r <==> LiteralName(channel)
  {
    for i := 0 to |channel|
      invariant LiteralName(channel[..i])
    {
      if channel[i] == '*' || channel[i] == '>' {
        return false;
      }
    }
    assert channel[..|channel|] == channel;
    return true;
  }

  /** The names among these that count against the number of channels. */
  function Literals(names: set<string>): set<string> {
    set cn | cn in names && LiteralName(cn)
  }

  predicate TooMany(maxChannels: int, names: set<string>) {
    maxChannels > 0 && |Literals(names)| > maxChannels
  }

  lemma LiteralsGrow(names: set<string>, more: set<string>)
    requires names <= more
    ensures |Literals(names)| <= |Literals(more)|
  {
    SubsetSize(Literals(names), Literals(more));
  }

  lemma LiteralsAdd(names: set<string>, cn: string)
    requires cn !in names
    ensures |Literals(names + {cn})| == |Literals(names)| + if LiteralName(cn) then 1 else 0
  {
    assert Literals(names + {cn}) == Literals(names) + if LiteralName(cn) then {cn} else {};
  }

  /** The sublist has been given these names. */
  ghost predicate Loaded(sub: SublistObject, infos: seq<Pattern>, perChannel: map<string, ChannelLimits>,
                         own: map<Pattern, ChannelLimits>)
    reads sub
  {
    Keyed(perChannel, own) && Configured(sub.root, infos, own.Keys) && sub.cache == map[]
  }

  method Load(sub: SublistObject, infos: seq<Pattern>, ghost perChannel: map<string, ChannelLimits>,
              own: map<Pattern, ChannelLimits>, cn: string, cl: ChannelLimits)
    returns (infos': seq<Pattern>, own': map<Pattern, ChannelLimits>)
    requires Loaded(sub, infos, perChannel, own) && ValidName(cn) && cn !in perChannel
    modifies sub
    ensures Loaded(sub, infos', perChannel[cn := cl], own')
  {
    var p := NameOf(cn);
    KeyedStep(perChannel, own, cn, cl);
    InsertName(sub, infos, own.Keys, cn);
    infos', own' := infos + [p], own[p := cl];
    assert own'.Keys == own.Keys + {p};
  }

  /** How far the check of the names has come. */
  ghost predicate Checked(perChannel: map<string, ChannelLimits>, done: map<string, ChannelLimits>, todo: set<string>,
                          maxChannels: int, literals: int) {
    && todo <= perChannel.Keys && done.Keys == perChannel.Keys - todo
    && (forall cn :: cn in done ==> done[cn] == perChannel[cn] && ValidName(cn))
    && literals == |Literals(done.Keys)| && !TooMany(maxChannels, done.Keys)
  }

  /** Checks one name and counts it if it is a literal. */
  method CheckName(ghost perChannel: map<string, ChannelLimits>, ghost done: map<string, ChannelLimits>,
                   ghost todo: set<string>, maxChannels: int, literals: int, cn: string)
    returns (err: BuildError, literals': int)
    requires Checked(perChannel, done, todo, maxChannels, literals) && cn in todo
    ensures err == NoBuildError ==>
              ValidName(cn) && Checked(perChannel, done[cn := perChannel[cn]], todo - {cn}, maxChannels, literals')
    ensures err != NoBuildError ==> Refusal(perChannel, maxChannels, err)
  {
    literals' := literals;
    var ok := IsChannelNameValid(cn, true);
    if !ok {
      err := InvalidName(cn);
      return;
    }
    var isLiteral := IsChannelNameLiteral(cn);
    LiteralsAdd(done.Keys, cn);
    LiteralsGrow(done.Keys + {cn}, perChannel.Keys);
    if isLiteral {
      literals' := literals + 1;
      if maxChannels > 0 && literals' > maxChannels {
        err := TooManyChannels;
        return;
      }
    }
    err := NoBuildError;
    assert done[cn := perChannel[cn]].Keys == done.Keys + {cn};
  }

  lemma AllChecked(perChannel: map<string, ChannelLimits>, done: map<string, ChannelLimits>, maxChannels: int,
                   literals: int)
    requires Checked(perChannel, done, {}, maxChannels, literals)
    ensures done == perChannel && Acceptable(perChannel, maxChannels)
  {
    assert done.Keys == perChannel.Keys;
  }

  predicate Acceptable(perChannel: map<string, ChannelLimits>, maxChannels: int) {
    (forall cn :: cn in perChannel ==> ValidName(cn)) && !TooMany(maxChannels, perChannel.Keys)
  }

  /** Why the limits are refused. */
  predicate Refusal(perChannel: map<string, ChannelLimits>, maxChannels: int, err: BuildError) {
    match err
    case NoBuildError => false
    case NegativeLimit => false
    case InvalidName(cn) => cn in perChannel && !ValidName(cn)
    case TooManyChannels => TooMany(maxChannels, perChannel.Keys)
  }

  method NewSublist() returns (sub: SublistObject)
    ensures fresh(sub) && Loaded(sub, [], map[], map[])
  {
    sub := new SublistObject();
    ConfiguredEmpty();
  }

  /** Checks the names and puts them into a sublist, in whatever order the map is gone through. */
  method InsertAll(perChannel: map<string, ChannelLimits>, maxChannels: int)
    returns (err: BuildError, sub: SublistObject, infos: seq<Pattern>, own: map<Pattern, ChannelLimits>)
    ensures err == NoBuildError ==> Acceptable(perChannel, maxChannels) && Loaded(sub, infos, perChannel, own)
    ensures err != NoBuildError ==> Refusal(perChannel, maxChannels, err)
    ensures fresh(sub)
  {
    err, infos, own := NoBuildError, [], map[];
    sub := NewSublist();
    var todo, literals := perChannel.Keys, 0;
    ghost var done: map<string, ChannelLimits> := map[];
    while todo != {}
      invariant Checked(perChannel, done, todo, maxChannels, literals)
      invariant Loaded(sub, infos, done, own) && fresh(sub)
      decreases todo
    {
      var cn :| cn in todo;
      err, literals := CheckName(perChannel, done, todo, maxChannels, literals, cn);
      if err != NoBuildError {
        return;
      }
      infos, own := Load(sub, infos, done, own, cn, perChannel[cn]);
      done := done[cn := perChannel[cn]];
      todo := todo - {cn};
    }
    AllChecked(perChannel, done, maxChannels, literals);
    err := NoBuildError;
  }

  predicate Negative(maxChannels: int, global: ChannelLimits) {
    || maxChannels < 0 || global.maxSubscriptions < 0 || global.maxMsgs < 0
    || global.maxBytes < 0 || global.maxAge < 0 || global.maxInactivity < 0
  }

  /** The limits after inheritance: those of every name are resolved along the chain of its own pattern. */
  ghost predicate Inherited(before: map<string, ChannelLimits>, global: ChannelLimits,
                            own: map<Pattern, ChannelLimits>, after: map<string, ChannelLimits>) {
    && Keyed(before, own) && Inheritance.Names(own.Keys) && after.Keys == before.Keys
    && forall cn :: cn in after ==> NameOf(cn) in own && after[cn] == Resolved(own, global, NameOf(cn))
  }

  /** Loads a sublist again, with the completed limits. */
  method Reload(perChannel: map<string, ChannelLimits>)
    returns (sub: SublistObject, infos: seq<Pattern>, own: map<Pattern, ChannelLimits>)
    requires forall cn :: cn in perChannel ==> ValidName(cn)
    ensures fresh(sub) && Loaded(sub, infos, perChannel, own)
  {
    infos, own := [], map[];
    sub := NewSublist();
    var todo := perChannel.Keys;
    ghost var done: map<string, ChannelLimits> := map[];
    while todo != {}
      invariant Copied(perChannel, done, todo)
      invariant Loaded(sub, infos, done, own) && fresh(sub)
      decreases todo
    {
      var cn :| cn in todo;
      CopiedStep(perChannel, done, todo, cn);
      infos, own := Load(sub, infos, done, own, cn, perChannel[cn]);
      done := done[cn := perChannel[cn]];
      todo := todo - {cn};
    }
    AllCopied(perChannel, done);
  }

  ghost predicate Copied(perChannel: map<string, ChannelLimits>, done: map<string, ChannelLimits>, todo: set<string>) {
    && todo <= perChannel.Keys && done.Keys == perChannel.Keys - todo
    && forall cn :: cn in done ==> done[cn] == perChannel[cn]
  }

  lemma CopiedStep(perChannel: map<string, ChannelLimits>, done: map<string, ChannelLimits>, todo: set<string>,
                   cn: string)
    requires Copied(perChannel, done, todo) && cn in todo
    ensures Copied(perChannel, done[cn := perChannel[cn]], todo - {cn})
  {
    assert done[cn := perChannel[cn]].Keys == perChannel.Keys - (todo - {cn});
  }

  lemma AllCopied(perChannel: map<string, ChannelLimits>, done: map<string, ChannelLimits>)
    requires Copied(perChannel, done, {})
    ensures done == perChannel
  {
    assert done.Keys == perChannel.Keys;
  }

  /** Reads the limits of the names from those of their patterns. */
  function Renamed(names: map<string, ChannelLimits>,
                   done: map<Pattern, ChannelLimits>): (r: map<string, ChannelLimits>)
    requires forall cn :: cn in names ==> ValidName(cn) && NameOf(cn) in done
    ensures r.Keys == names.Keys && forall cn :: cn in names ==> r[cn] == done[NameOf(cn)]
  {
    map cn | cn in names :: done[NameOf(cn)]
  }

  method InheritLimits(sub: SublistObject, infos: seq<Pattern>, perChannel: map<string, ChannelLimits>,
                       own: map<Pattern, ChannelLimits>, global: ChannelLimits)
    returns (after: map<string, ChannelLimits>)
    requires Loaded(sub, infos, perChannel, own)
    modifies sub
    ensures Inherited(perChannel, global, own, after)
  {
    var done := ApplyInheritance(sub, infos, own, global);
    InheritedRenamed(perChannel, global, own, done);
    after := Renamed(perChannel, done);
  }

  lemma InheritedRenamed(before: map<string, ChannelLimits>, global: ChannelLimits, own: map<Pattern, ChannelLimits>,
                         done: map<Pattern, ChannelLimits>)
    requires Keyed(before, own) && Inheritance.Names(own.Keys) && done == AllResolved(own, global)
    ensures forall cn :: cn in before ==> ValidName(cn) && NameOf(cn) in done
    ensures Inherited(before, global, own, Renamed(before, done))
  {
  }

  class StoreLimits {
    var maxChannels: int
    var global: ChannelLimits
    var perChannel: map<string, ChannelLimits>

    constructor (maxChannels: int, global: ChannelLimits, perChannel: map<string, ChannelLimits>)
      ensures this.maxChannels == maxChannels && this.global == global && this.perChannel == perChannel
    {
      this.maxChannels, this.global, this.perChannel := maxChannels, global, perChannel;
    }

    /** Validates the limits, and completes those of every configured name. */
    method Build() returns (err: BuildError, ghost own: map<Pattern, ChannelLimits>)
      modifies this`perChannel
      ensures err == NegativeLimit <==> Negative(maxChannels, global)
      ensures err != NegativeLimit && err != NoBuildError ==> Refusal(old(perChannel), maxChannels, err)
      ensures err == NoBuildError <==> !Negative(maxChannels, global) && Acceptable(old(perChannel), maxChannels)
      ensures err == NoBuildError ==> Inherited(old(perChannel), global, own, perChannel)
      ensures err != NoBuildError ==> perChannel == old(perChannel)
    {
      own := map[];
      if Negative(maxChannels, global) {
        return NegativeLimit, own;
      }
      var e, sub, infos, read := InsertAll(perChannel, maxChannels);
      err, own := e, read;
      if err == NoBuildError {
        perChannel := InheritLimits(sub, infos, perChannel, read, global);
      }
    }
  }

  // ---------- The limits of a channel ----------

  /** The limits that apply to a channel: those of the last pattern that matches it, else the global ones. */
  function Effective(limits: map<Pattern, ChannelLimits>, global: ChannelLimits, toks: seq<string>): ChannelLimits {
    var r := Chain(limits.Keys, toks);
    if r == [] then global else limits[r[|r| - 1]]
  }

  /** The pattern whose limits apply is never wider than another one that matches. */
  lemma EffectiveIsNarrowest(limits: map<Pattern, ChannelLimits>, global: ChannelLimits, toks: seq<string>)
      returns (p: Pattern)
    requires toks != [] && exists q :: q in limits && Matches(q, toks)
    ensures p in limits && Matches(p, toks) && Effective(limits, global, toks) == limits[p]
    ensures forall q :: q in limits && q != p && Matches(q, toks) ==> !Covers(p, q)
  {
    var r := Chain(limits.Keys, toks);
    ChainSorted(limits.Keys, toks);
    forall q | q in limits ensures Matches(q, toks) <==> q in r {
      PatternsAreMatches(toks, q);
    }
    p := r[|r| - 1];
    forall q | q in limits && q != p && Matches(q, toks) ensures !Covers(p, q) {
      if Covers(p, q) {
        WiderIsEarlier(p, q);
        var i :| 0 <= i < |r| && r[i] == q;
        EarlierTransitive(p, q, p);
        NotEarlierThanItself(p);
      }
    }
  }

  /** A channel that is configured by its own name has the limits given there. */
  lemma ConfiguredChannel(perChannel: map<string, ChannelLimits>, limits: map<Pattern, ChannelLimits>,
                          global: ChannelLimits, channel: string)
    requires Keyed(perChannel, limits) && channel in perChannel && IsLiteral(NameOf(channel))
    ensures Effective(limits, global, Split(channel)) == perChannel[channel]
  {
    LiteralWins(limits.Keys, NameOf(channel));
  }

  lemma LastFound(root: Level, infos: seq<Pattern>, limits: map<Pattern, ChannelLimits>, global: ChannelLimits,
                  toks: seq<string>)
    requires Holds(root, infos) && ToSet(infos) == limits.Keys
    ensures var r := Gather(root, Patterns(toks));
            if r == [] then Effective(limits, global, toks) == global
            else
              && 0 <= r[|r| - 1] < |infos| && infos[r[|r| - 1]] in limits
              && Effective(limits, global, toks) == limits[infos[r[|r| - 1]]]
  {
    GatherIsFilter(root, infos, Patterns(toks));
    LastNamed(infos, Gather(root, Patterns(toks)), limits, global, toks);
  }

  lemma LastNamed(infos: seq<Pattern>, r: seq<Element>, limits: map<Pattern, ChannelLimits>, global: ChannelLimits,
                  toks: seq<string>)
    requires AllIn(r, |infos|) && Named(infos, r) == Chain(limits.Keys, toks)
    ensures if r == [] then Effective(limits, global, toks) == global
            else
              && 0 <= r[|r| - 1] < |infos| && infos[r[|r| - 1]] in limits
              && Effective(limits, global, toks) == limits[infos[r[|r| - 1]]]
  {
    var names := Named(infos, r);
    if r != [] {
      assert names[|r| - 1] in names;
    }
  }

  class GenericStore {
    const sublist: SublistObject
    const global: ChannelLimits
    var infos: seq<Pattern>
    var limits: map<Pattern, ChannelLimits>

    constructor (perChannel: map<string, ChannelLimits>, global: ChannelLimits)
      requires forall cn :: cn in perChannel ==> ValidName(cn)
      ensures Valid() && fresh(sublist) && Keyed(perChannel, limits) && this.global == global
    {
      var sub, i, own := Reload(perChannel);
      sublist, infos, limits, this.global := sub, i, own, global;
    }

    ghost predicate Valid()
      reads this, sublist
    {
      && Holds(sublist.root, infos) && ToSet(infos) == limits.Keys
      && forall k :: k in sublist.cache ==> sublist.cache[k] == Gather(sublist.root, Patterns(Split(k)))
    }

    /** What a search for the channel returns, cached or not. */
    method Find(channel: string) returns (r: seq<Element>)
      requires forall k :: k in sublist.cache ==> sublist.cache[k] == Gather(sublist.root, Patterns(Split(k)))
      modifies sublist`cache
      ensures forall k :: k in sublist.cache ==> sublist.cache[k] == Gather(sublist.root, Patterns(Split(k)))
      ensures r == Gather(sublist.root, Patterns(Split(channel)))
    {
      r := sublist.Match(channel);
    }

    method GetChannelLimits(channel: string) returns (cl: ChannelLimits)
      requires Valid()
      modifies sublist`cache
      ensures Valid()
      ensures cl == Effective(limits, global, Split(channel))
    {
      var r := Find(channel);
      LastFound(sublist.root, infos, limits, global, Split(channel));
      if |r| == 0 {
        return global;
      }
      return limits[infos[r[|r| - 1]]];
    }
  }
}
