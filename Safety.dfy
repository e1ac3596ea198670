/** The fixed deny-pattern gate applied to the generator and standard sources
    before anything is executed. */
module Safety {
  import opened Text

  /** A regular expression of the shape `head\s{minGap,}tail`, searched for anywhere
      in a string (no anchors, no flags). All eight deny patterns have this shape:
      `import\s+os` is ("import", 1, "os"), `exec\s*\(` is ("exec", 0, "(") and
      `__import__` is ("__import__", 0, ""). */
  datatype DenyPattern = DenyPattern(head: string, minGap: nat, tail: string)

  /** The deny patterns, in the order the gate tries them. */
  const DenyList: seq<DenyPattern> := [
    DenyPattern("import", 1, "os"),
    DenyPattern("import", 1, "subprocess"),
    DenyPattern("import", 1, "sys"),
    DenyPattern("exec", 0, "("),
    DenyPattern("eval", 0, "("),
    DenyPattern("open", 0, "("),
    DenyPattern("__import__", 0, ""),
    DenyPattern("compile", 0, "(")
  ]

  /** What follows the white-space run cannot itself be white space, so the run is
      determined by the string: this is what lets a greedy scan decide the pattern. */
  predicate WellFormed(p: DenyPattern) {
    p.tail == [] || !IsSpace(p.tail[0])
  }

  lemma DenyListWellFormed()
    ensures |DenyList| == 8
    ensures forall k :: 0 <= k < |DenyList| ==> WellFormed(DenyList[k])
  {
  }

  /** Length of the maximal run of white space in `s` starting at `j`. */
  function SpaceRun(s: string, j: nat): (w: nat)
    requires j <= |s|
    ensures j + w <= |s|
    ensures AllSpace(s[j..j + w])
    ensures j + w == |s| || !IsSpace(s[j + w])
    decreases |s| - j
  {
    if j < |s| && IsSpace(s[j]) then
      var w := SpaceRun(s, j + 1);
      assert s[j..j + 1 + w] == [s[j]] + s[j + 1..j + 1 + w];
      1 + w
    else
      0
  }

  /** The pattern matches at position `i`, with the white-space run taken greedily. */
  predicate MatchesAt(p: DenyPattern, s: string, i: nat)
    requires i <= |s|
  {
    StartsWith(s[i..], p.head) &&
    var j := i + |p.head|;
    var w := SpaceRun(s, j);
    w >= p.minGap && StartsWith(s[j + w..], p.tail)
  }

  predicate MatchesFrom(p: DenyPattern, s: string, i: nat)
    requires i <= |s|
    decreases |s| - i
  {
    MatchesAt(p, s, i) || (i < |s| && MatchesFrom(p, s, i + 1))
  }

  /** `pattern.test(s)`: a search over every start position. */
  predicate Matches(p: DenyPattern, s: string) {
    MatchesFrom(p, s, 0)
  }

  /** The regular-expression meaning: at position `i` there are `head`, then exactly
      `k >= minGap` white-space characters, then `tail`. */
  ghost predicate RegexMatchesAt(p: DenyPattern, s: string, i: nat, k: nat) {
    && i <= |s|
    && StartsWith(s[i..], p.head)
    && i + |p.head| + k <= |s|
    && k >= p.minGap
    && AllSpace(s[i + |p.head|..i + |p.head| + k])
    && StartsWith(s[i + |p.head| + k..], p.tail)
  }

  ghost predicate RegexMatches(p: DenyPattern, s: string) {
    exists i, k :: RegexMatchesAt(p, s, i, k)
  }

  /** Every white-space gap at `j` lies within the maximal run. */
  lemma {:induction false} RunCoversGap(s: string, j: nat, k: nat)
    requires j + k <= |s|
    requires AllSpace(s[j..j + k])
    ensures k <= SpaceRun(s, j)
    decreases k
  {
    if k > 0 {
      assert s[j..j + k][0] == s[j];
      assert s[j + 1..j + 1 + (k - 1)] == s[j..j + k][1..];
      RunCoversGap(s, j + 1, k - 1);
    }
  }

  /** A gap followed by a non-space character is the maximal run. */
  lemma {:induction false} RunEndsAtNonSpace(s: string, j: nat, k: nat)
    requires j + k < |s|
    requires AllSpace(s[j..j + k])
    requires !IsSpace(s[j + k])
    ensures k == SpaceRun(s, j)
    decreases k
  {
    if k > 0 {
      assert s[j..j + k][0] == s[j];
      assert s[j + 1..j + 1 + (k - 1)] == s[j..j + k][1..];
      RunEndsAtNonSpace(s, j + 1, k - 1);
    }
  }

  lemma RegexMatchIsGreedyMatch(p: DenyPattern, s: string, i: nat, k: nat)
    requires WellFormed(p)
    requires RegexMatchesAt(p, s, i, k)
    ensures MatchesAt(p, s, i)
  {
    var j := i + |p.head|;
    RunCoversGap(s, j, k);
    if p.tail != [] {
      assert s[j + k..][0] == p.tail[0];
      RunEndsAtNonSpace(s, j, k);
    }
  }

  lemma MatchesAtIff(p: DenyPattern, s: string, i: nat)
    requires WellFormed(p)
    requires i <= |s|
    ensures MatchesAt(p, s, i) <==> exists k :: RegexMatchesAt(p, s, i, k)
  {
    if MatchesAt(p, s, i) {
      assert RegexMatchesAt(p, s, i, SpaceRun(s, i + |p.head|));
    }
    if exists k: nat :: RegexMatchesAt(p, s, i, k) {
      var k: nat :| RegexMatchesAt(p, s, i, k);
      RegexMatchIsGreedyMatch(p, s, i, k);
    }
  }

  lemma {:induction false} MatchesFromIff(p: DenyPattern, s: string, i: nat)
    requires WellFormed(p)
    requires i <= |s|
    ensures MatchesFrom(p, s, i) <==> exists i', k :: i <= i' && RegexMatchesAt(p, s, i', k)
    decreases |s| - i
  {
    MatchesAtIff(p, s, i);
    if i < |s| {
      MatchesFromIff(p, s, i + 1);
    }
    if exists i': nat, k: nat :: i <= i' && RegexMatchesAt(p, s, i', k) {
      var i': nat, k: nat :| i <= i' && RegexMatchesAt(p, s, i', k);
      if i' == i {
        assert MatchesAt(p, s, i);
      } else {
        assert i + 1 <= i';
      }
    }
  }

  /** The scan decides exactly the regular-expression search, for every pattern whose
      tail does not start with white space. */
  lemma MatchesIff(p: DenyPattern, s: string)
    requires WellFormed(p)
    ensures Matches(p, s) <==> RegexMatches(p, s)
  {
    MatchesFromIff(p, s, 0);
  }

  /** The gate's verdict: some deny pattern occurs in the generator, or in the
      standard when the standard is not empty. */
  predicate Unsafe(generator: string, standard: string) {
    exists k :: 0 <= k < |DenyList| &&
      (Matches(DenyList[k], generator) || (standard != "" && Matches(DenyList[k], standard)))
  }

  /** The gate in regular-expression terms. */
  lemma UnsafeIff(generator: string, standard: string)
    ensures Unsafe(generator, standard) <==>
      exists k :: 0 <= k < |DenyList| &&
        (RegexMatches(DenyList[k], generator) || (standard != "" && RegexMatches(DenyList[k], standard)))
  {
    forall k | 0 <= k < |DenyList|
      ensures Matches(DenyList[k], generator) <==> RegexMatches(DenyList[k], generator)
      ensures Matches(DenyList[k], standard) <==> RegexMatches(DenyList[k], standard)
    {
      MatchesIff(DenyList[k], generator);
      MatchesIff(DenyList[k], standard);
    }
  }

  /** The pattern loop of the request handler: tries each pattern in turn and stops
      at the first one that matches either source. */
  method ScanDenyPatterns(generator: string, standard: string) returns (unsafe: bool)
    ensures unsafe == Unsafe(generator, standard)
  {
    for k := 0 to |DenyList|
      invariant forall m :: 0 <= m < k ==>
        !Matches(DenyList[m], generator) && !(standard != "" && Matches(DenyList[m], standard))
    {
      var p := DenyList[k];
      if Matches(p, generator) || (standard != "" && Matches(p, standard)) {
        return true;
      }
    }
    return false;
  }
}
