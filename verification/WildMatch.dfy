/**
  The wildcard match of talk/base/proxydetect.cc, case-insensitive.

  `Matches` says declaratively when a string is made of one part per token.  A
  pattern has two readings: `Glob`, in which every star stands for any string,
  and `Read`, which is what the code does: the character after a star is a
  literal, even when it is another star.  `AgreesIff` says for which patterns
  the two readings are the same.
*/
module WildMatch {
  import opened Prelude

  datatype Token = Any | Lit(c: char)

  /** A string without the terminating NUL. */
  predicate CString(s: string) { forall i :: 0 <= i < |s| ==> s[i] as int != 0 }

  predicate SameUpper(c: char, d: char) { ToUpper(c) == ToUpper(d) }

  predicate Fits(t: Token, part: string) {
    t.Lit? ==> |part| == 1 && SameUpper(t.c, part[0])
  }

  ghost predicate Splits(tokens: seq<Token>, parts: seq<string>, target: string) {
    && |parts| == |tokens| && Concat(parts) == target
    && forall i :: 0 <= i < |parts| ==> Fits(tokens[i], parts[i])
  }

  /** The target can be cut into parts, one for each token. */
  ghost predicate Matches(tokens: seq<Token>, target: string) {
    exists parts :: Splits(tokens, parts, target)
  }

  /** Each star is any string. */
  function Glob(pattern: string): (ts: seq<Token>)
    ensures |ts| == |pattern|
    ensures forall i :: 0 <= i < |ts| ==> ts[i] == if pattern[i] == '*' then Any else Lit(pattern[i])
  {
    if pattern == "" then []
    else [if pattern[0] == '*' then Any else Lit(pattern[0])] + Glob(pattern[1..])
  }

  /** What follows a star is a literal. */
  function Read(pattern: string): seq<Token> {
    if pattern == "" then []
    else if pattern[0] != '*' then [Lit(pattern[0])] + Read(pattern[1..])
    else if |pattern| == 1 then [Any]
    else [Any, Lit(pattern[1])] + Read(pattern[2..])
  }

  predicate AdjacentStars(pattern: string) {
    exists i :: 0 < i < |pattern| && pattern[i - 1] == '*' && pattern[i] == '*'
  }

  // ---------------------------------------------------------------------
  // Matching token by token
  // ---------------------------------------------------------------------

  lemma MatchesNone(target: string)
    ensures Matches([], target) <==> target == ""
  {
    if target == "" { assert Splits([], [], target); }
  }

  lemma SplitsCons(t: Token, ts: seq<Token>, part: string, parts: seq<string>, target: string)
    requires Fits(t, part) && Splits(ts, parts, target)
    ensures Splits([t] + ts, [part] + parts, part + target)
  {
  }

  lemma SplitsTail(t: Token, ts: seq<Token>, parts: seq<string>, target: string)
    requires Splits([t] + ts, parts, target)
    ensures Fits(t, parts[0]) && target == parts[0] + Concat(parts[1..])
    ensures Splits(ts, parts[1..], Concat(parts[1..]))
  {
  }

  lemma MatchesLit(c: char, ts: seq<Token>, target: string)
    ensures Matches([Lit(c)] + ts, target) <==> target != "" && SameUpper(c, target[0]) && Matches(ts, target[1..])
  {
    if Matches([Lit(c)] + ts, target) {
      var parts :| Splits([Lit(c)] + ts, parts, target);
      SplitsTail(Lit(c), ts, parts, target);
      assert target[1..] == Concat(parts[1..]);
    }
    if target != "" && SameUpper(c, target[0]) && Matches(ts, target[1..]) {
      var parts :| Splits(ts, parts, target[1..]);
      SplitsCons(Lit(c), ts, target[..1], parts, target[1..]);
      assert target == target[..1] + target[1..];
    }
  }

  /** A star takes nothing, or one character more. */
  lemma MatchesAny(ts: seq<Token>, target: string)
    ensures Matches([Any] + ts, target) <==> Matches(ts, target) || (target != "" && Matches([Any] + ts, target[1..]))
  {
    if Matches([Any] + ts, target) {
      var parts :| Splits([Any] + ts, parts, target);
      SplitsTail(Any, ts, parts, target);
      if parts[0] != "" {
        SplitsCons(Any, ts, parts[0][1..], parts[1..], Concat(parts[1..]));
        assert parts[0][1..] + Concat(parts[1..]) == target[1..];
      } else {
        assert target == Concat(parts[1..]);
      }
    }
    if Matches(ts, target) {
      var parts :| Splits(ts, parts, target);
      SplitsCons(Any, ts, "", parts, target);
      assert "" + target == target;
    }
    if target != "" && Matches([Any] + ts, target[1..]) {
      var parts :| Splits([Any] + ts, parts, target[1..]);
      SplitsTail(Any, ts, parts, target[1..]);
      SplitsCons(Any, ts, target[..1] + parts[0], parts[1..], Concat(parts[1..]));
      assert (target[..1] + parts[0]) + Concat(parts[1..]) == target;
    }
  }

  lemma MatchesAll(target: string)
    ensures Matches([Any], target)
  {
    assert Concat([target]) == target + Concat<char>([]);
    assert Splits([Any], [target], target);
  }

  // ---------------------------------------------------------------------
  // The algorithm
  // ---------------------------------------------------------------------

  /** *s, where s is at the terminating NUL when nothing is left. */
  function First(s: string): char { if s == "" then 0 as char else s[0] }

  /** The star is followed by p[0], which has to be found in the target. */
  method WildMatch(target: string, pattern: string) returns (found: bool)
    requires CString(target) && CString(pattern)
    ensures found <==> Matches(Read(pattern), target)
    decreases |pattern|
  {
    var t, p := target, pattern;
    while p != ""
      invariant CString(t) && CString(p) && |p| <= |pattern|
      invariant Matches(Read(pattern), target) <==> Matches(Read(p), t)
      decreases |p|
    {
      if p[0] == '*' {
        ghost var q := p;
        p := p[1..];
        if p == "" {
          MatchesAll(t);
          return true;
        }
        ghost var rest := [Lit(p[0])] + Read(p[1..]);
        assert Read(q) == [Any] + rest by { assert q[2..] == p[1..]; }
        while t != ""
          invariant CString(t)
          invariant Matches(Read(pattern), target) <==> Matches([Any] + rest, t)
          decreases |t|
        {
          MatchesAny(rest, t);
          MatchesLit(p[0], Read(p[1..]), t);
          if ToUpper(p[0]) == ToUpper(t[0]) {
            var deeper := WildMatch(t[1..], p[1..]);
            if deeper {
              return true;
            }
          }
          t := t[1..];
        }
        MatchesAny(rest, t);
        MatchesLit(p[0], Read(p[1..]), t);
        return false;
      } else {
        MatchesLit(p[0], Read(p[1..]), t);
        if ToUpper(p[0]) != ToUpper(First(t)) {
          return false;
        }
        t := t[1..];
        p := p[1..];
      }
    }
    MatchesNone(t);
    return t == "";
  }

  // ---------------------------------------------------------------------
  // When the code means what a glob means
  // ---------------------------------------------------------------------

  lemma {:induction false} SameReading(pattern: string)
    requires !AdjacentStars(pattern)
    ensures Read(pattern) == Glob(pattern)
  {
    if pattern == "" {
    } else if pattern[0] != '*' {
      NoneAfter(pattern, 1);
      SameReading(pattern[1..]);
    } else if |pattern| > 1 {
      NoneAfter(pattern, 2);
      assert pattern[1] != '*';
      SameReading(pattern[2..]);
      assert pattern[1..][1..] == pattern[2..];
    }
  }

  lemma NoneAfter(pattern: string, k: nat)
    requires !AdjacentStars(pattern) && k <= |pattern|
    ensures !AdjacentStars(pattern[k..])
  {
  }

  /** The pattern with its stars left out: every star taken for the empty string. */
  function Plain(pattern: string): (s: string)
    ensures '*' !in s
  {
    if pattern == "" then ""
    else (if pattern[0] == '*' then "" else pattern[..1]) + Plain(pattern[1..])
  }

  lemma {:induction false} GlobMatchesPlain(pattern: string)
    ensures Matches(Glob(pattern), Plain(pattern))
  {
    if pattern == "" {
      MatchesNone("");
    } else {
      GlobMatchesPlain(pattern[1..]);
      if pattern[0] == '*' {
        MatchesAny(Glob(pattern[1..]), Plain(pattern));
        assert "" + Plain(pattern[1..]) == Plain(pattern[1..]);
      } else {
        MatchesLit(pattern[0], Glob(pattern[1..]), Plain(pattern));
        assert Plain(pattern)[1..] == Plain(pattern[1..]);
      }
    }
  }

  /** Where a star is a literal, the target needs a star. */
  lemma {:induction false} LiteralStar(ts: seq<Token>, target: string)
    requires Lit('*') in ts && Matches(ts, target)
    ensures '*' in target
    decreases |ts|, |target|
  {
    var rest := ts[1..];
    assert ts == [ts[0]] + rest;
    if ts[0].Lit? {
      MatchesLit(ts[0].c, rest, target);
      if ts[0].c != '*' { LiteralStar(rest, target[1..]); }
    } else {
      MatchesAny(rest, target);
      if Matches(rest, target) {
        LiteralStar(rest, target);
      } else {
        LiteralStar(ts, target[1..]);
      }
    }
  }

  lemma {:induction false} AdjacentIsLiteral(pattern: string)
    requires AdjacentStars(pattern)
    ensures Lit('*') in Read(pattern)
  {
    var i :| 0 < i < |pattern| && pattern[i - 1] == '*' && pattern[i] == '*';
    if pattern[0] != '*' {
      assert pattern[1..][i - 2] == '*' && pattern[1..][i - 1] == '*';
      AdjacentIsLiteral(pattern[1..]);
    } else if pattern[1] != '*' {
      assert pattern[2..][i - 3] == '*' && pattern[2..][i - 2] == '*';
      AdjacentIsLiteral(pattern[2..]);
    }
  }

  /** The code agrees with the glob on every target exactly if no star follows a star. */
  lemma AgreesIff(pattern: string)
    ensures (forall target :: Matches(Read(pattern), target) <==> Matches(Glob(pattern), target))
            <==> !AdjacentStars(pattern)
  {
    if AdjacentStars(pattern) {
      AdjacentIsLiteral(pattern);
      GlobMatchesPlain(pattern);
      if Matches(Read(pattern), Plain(pattern)) {
        LiteralStar(Read(pattern), Plain(pattern));
      }
    } else {
      SameReading(pattern);
    }
  }

  /** Two stars match what ends in a star; the glob matches anything. */
  lemma TwoStars(target: string)
    ensures Matches(Read("**"), target) <==> target != "" && target[|target| - 1] == '*'
    ensures Matches(Glob("**"), target)
  {
    assert Read("**") == [Any, Lit('*')];
    StarBehind(target);
    assert Glob("**") == [Any] + [Any];
    MatchesAll(target);
    MatchesAny([Any], target);
  }

  lemma {:induction false} StarBehind(target: string)
    ensures Matches([Any, Lit('*')], target) <==> target != "" && target[|target| - 1] == '*'
  {
    var ts := [Lit('*')];
    assert [Any, Lit('*')] == [Any] + ts;
    assert ts == ts + [];
    MatchesAny(ts, target);
    MatchesLit('*', [], target);
    if target != "" {
      MatchesNone(target[1..]);
      StarBehind(target[1..]);
    }
  }
}
