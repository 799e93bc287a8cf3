/** Channel names: from patterns to their text and back, and which names are valid (util/util.go, util/sublist.go). */
module SubjectNames {
  import opened Subjects

  function TokText(tok: Tok): string {
    match tok
    case Pwc => "*"
    case Fwc => ">"
    case Lit(t) => t
  }

  function Texts(p: Pattern): (r: seq<string>)
    ensures |r| == |p|
  {
    if p == [] then [] else [TokText(p[0])] + Texts(p[1..])
  }

  function Join(toks: seq<string>): string
    requires toks != []
  {
    if |toks| == 1 then toks[0] else toks[0] + [SEP] + Join(toks[1..])
  }

  function Text(p: Pattern): string
    requires p != []
  {
    Join(Texts(p))
  }

  /** A token as it is found in valid names: literals are not empty and have neither separator nor wildcard. */
  predicate CleanTok(tok: Tok) {
    tok.Lit? ==> tok.t != "" && SEP !in tok.t && '*' !in tok.t && '>' !in tok.t
  }

  predicate Clean(p: Pattern) {
    p == [] || (CleanTok(p[0]) && Clean(p[1..]))
  }

  lemma {:induction false} SplitJoin(toks: seq<string>)
    requires toks != [] && forall i :: 0 <= i < |toks| ==> SEP !in toks[i]
    ensures Split(Join(toks)) == toks
    decreases |toks|
  {
    var s := Join(toks);
    if |toks| == 1 {
      FirstSepIs(s, |s|);
    } else {
      FirstSepIs(s, |toks[0]|);
      assert s[..|toks[0]|] == toks[0] && s[|toks[0]| + 1..] == Join(toks[1..]);
      SplitJoin(toks[1..]);
    }
  }

  lemma {:induction false} TextsClean(p: Pattern)
    requires Clean(p) && (p != [] ==> WellFormed(p))
    ensures forall i :: 0 <= i < |p| ==> SEP !in Texts(p)[i] && Texts(p)[i] != ""
    ensures ValidPatternTokens(Texts(p)) && NonEmptyTokens(Texts(p)) && Parse(Texts(p)) == p
    decreases |p|
  {
    if p != [] {
      TextsClean(p[1..]);
      var ts := Texts(p);
      assert ts[1..] == Texts(p[1..]);
      assert Kind(ts[0]) == p[0];
      assert p[0].Lit? ==> forall i :: 0 <= i < |ts[0]| ==> !IsWildcard(ts[0][i]);
      assert p == [p[0]] + p[1..];
    }
  }

  /** Writing a pattern out and reading it again gives it back. */
  lemma TextRoundTrip(p: Pattern)
    requires Clean(p) && WellFormed(p)
    ensures Split(Text(p)) == Texts(p) && ValidPattern(Text(p)) && ValidSubject(Text(p)) && Parse(Split(Text(p))) == p
  {
    TextsClean(p);
    SplitJoin(Texts(p));
  }

  lemma {:induction false} JoinSplit(s: string)
    ensures Join(Split(s)) == s
    ensures forall i :: 0 <= i < |Split(s)| ==> SEP !in Split(s)[i]
    decreases |s|
  {
    var i := FirstSep(s);
    SplitFirst(s);
    if i < |s| {
      JoinSplit(s[i + 1..]);
      assert s == s[..i] + [SEP] + s[i + 1..];
    }
  }

  lemma {:induction false} ParsedClean(toks: seq<string>)
    requires ValidPatternTokens(toks) && NonEmptyTokens(toks) && forall i :: 0 <= i < |toks| ==> SEP !in toks[i]
    ensures Clean(Parse(toks)) && Texts(Parse(toks)) == toks
    decreases |toks|
  {
    if toks != [] {
      ParsedClean(toks[1..]);
      assert toks == [toks[0]] + toks[1..];
    }
  }

  /** Reading a valid name and writing it out gives it back. */
  lemma NameRoundTrip(s: string)
    requires ValidPattern(s)
    ensures NonEmptyTokens(Split(s))
    ensures var p := Parse(Split(s)); p != [] && WellFormed(p) && Clean(p) && Text(p) == s && Texts(p) == Split(s)
  {
    ValidIsNonEmpty(Split(s));
    JoinSplit(s);
    ParsedClean(Split(s));
  }

  lemma {:induction false} MatchesItself(p: Pattern)
    requires p != [] ==> WellFormed(p)
    ensures Matches(p, Texts(p))
    decreases |p|
  {
    if p != [] {
      MatchesItself(p[1..]);
      assert Texts(p)[1..] == Texts(p[1..]);
    }
  }

  // ---------- Valid channel names ----------

  /** What the name check asks of the character at `i`, wildcards being allowed. */
  predicate CharOk(s: string, i: nat)
    requires i < |s|
  {
    && s[i] != '/'
    && (s[i] == SEP ==> i < |s| - 1 && s[i + 1] != SEP)
    && (IsWildcard(s[i]) ==>
          && (i > 0 ==> s[i - 1] == SEP)
          && (s[i] == '>' ==> i == |s| - 1)
          && (i < |s| - 1 ==> s[i + 1] == SEP))
  }

  predicate NameOk(s: string) {
    s != "" && s[0] != SEP && forall i :: 0 <= i < |s| ==> CharOk(s, i)
  }

  /** Checks a channel name character by character: exactly the names without `/` that are valid patterns pass. */
  method IsChannelNameValid(channel: string, wildcardsAllowed: bool) returns (ok: bool)
    ensures wildcardsAllowed ==> (ok <==> '/' !in channel && ValidPattern(channel))
    ensures !wildcardsAllowed ==>
              (ok <==> '/' !in channel && ValidPattern(channel) && '*' !in channel && '>' !in channel)
  {
    NameOkIsValid(channel);
    if channel == "" || channel[0] == SEP {
      return false;
    }
    for i := 0 to |channel|
      invariant forall j :: 0 <= j < i ==> CharOk(channel, j) && (!wildcardsAllowed ==> !IsWildcard(channel[j]))
    {
      var c := channel[i];
      if c == '/' {
        return false;
      }
      if c == SEP && (i == |channel| - 1 || channel[i + 1] == SEP) {
        assert !CharOk(channel, i);
        return false;
      }
      if !wildcardsAllowed {
        if c == '*' || c == '>' {
          return false;
        }
      } else if c == '*' || c == '>' {
        if i > 0 && channel[i - 1] != SEP {
          assert !CharOk(channel, i);
          return false;
        }
        if c == '>' && i != |channel| - 1 {
          assert !CharOk(channel, i);
          return false;
        }
        if i < |channel| - 1 && channel[i + 1] != SEP {
          assert !CharOk(channel, i);
          return false;
        }
      }
    }
    return true;
  }

  lemma {:induction false} NameOkIsValid(s: string)
    ensures NameOk(s) <==> '/' !in s && ValidPattern(s)
    decreases |s|
  {
    var i := FirstSep(s);
    SplitFirst(s);
    var t, toks := s[..i], Split(s);
    assert toks == [t] + toks[1..];
    if i < |s| {
      var rest := s[i + 1..];
      NameOkIsValid(rest);
      if NameOk(s) {
        assert CharOk(s, i);
        OkParts(s, i);
      } else if '/' !in s && ValidPattern(s) {
        PartsOk(s, i);
      }
    } else {
      assert |toks| == 1 && toks[0] == s && ValidPatternTokens(toks[1..]);
      if NameOk(s) {
        OneTokenOk(s);
      } else if '/' !in s && ValidPattern(s) {
        TokenIsOk(s);
      }
    }
  }

  /** A first token of a valid pattern. */
  predicate TokenOk(t: string, last: bool) {
    t != "" && (t == "*" || (t == ">" && last) || forall i :: 0 <= i < |t| ==> !IsWildcard(t[i]))
  }

  lemma OneTokenOk(s: string)
    requires NameOk(s)
    requires forall j :: 0 <= j < |s| ==> s[j] != SEP
    ensures TokenOk(s, true) && '/' !in s
  {
    forall j | 0 <= j < |s| && IsWildcard(s[j]) ensures s == [s[j]] {
      assert CharOk(s, j);
    }
    NoSlash(s);
  }

  lemma NoSlash(s: string)
    requires NameOk(s)
    ensures forall j :: 0 <= j < |s| ==> s[j] != '/'
  {
    forall j | 0 <= j < |s| ensures s[j] != '/' {
      assert CharOk(s, j);
    }
  }

  lemma TokenIsOk(s: string)
    requires TokenOk(s, true) && '/' !in s && forall j :: 0 <= j < |s| ==> s[j] != SEP
    ensures NameOk(s)
  {
  }

  /** A valid name with more than one token: its first token and the rest are valid. */
  lemma OkParts(s: string, i: nat)
    requires NameOk(s) && i < |s| && s[i] == SEP && forall j :: 0 <= j < i ==> s[j] != SEP
    ensures TokenOk(s[..i], false) && '/' !in s[..i] && NameOk(s[i + 1..]) && '/' !in s
  {
    var t, rest := s[..i], s[i + 1..];
    assert CharOk(s, i);
    forall j | 0 <= j < |t| && IsWildcard(t[j]) ensures t == "*" {
      assert CharOk(s, j);
    }
    forall j | 0 <= j < |rest| ensures CharOk(rest, j) {
      assert CharOk(s, i + 1 + j);
    }
    NoSlash(s);
  }

  lemma PartsOk(s: string, i: nat)
    requires i < |s| && s[i] == SEP && forall j :: 0 <= j < i ==> s[j] != SEP
    requires TokenOk(s[..i], false) && '/' !in s && NameOk(s[i + 1..])
    ensures NameOk(s)
  {
    var t, rest := s[..i], s[i + 1..];
    forall j | 0 <= j < |s| ensures CharOk(s, j) {
      if j < i {
        assert t[j] == s[j];
      } else if j > i {
        assert CharOk(rest, j - i - 1);
      }
    }
    assert s[0] == t[0];
  }
}
