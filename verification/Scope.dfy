/**
 * glob.ts and enforce.ts: when two write patterns are taken to overlap, and which changed paths a write scope accepts.
 */
module Scope {
  import opened RegExp
  import opened Glob
  import opened Meeting

  predicate Wild(seg: string) {
    exists i :: 0 <= i < |seg| && seg[i] in {'*', '?'}
  }

  /** The segments before the first one with a wildcard. */
  function LiteralSegments(segs: seq<string>): seq<string> {
    if segs == [] || Wild(segs[0]) then [] else [segs[0]] + LiteralSegments(segs[1..])
  }

  function LiteralPrefix(pattern: string): string {
    Join(LiteralSegments(Split(NormalizeRelPath(pattern))))
  }

  /** The loop of literalPrefix. */
  method ComputeLiteralPrefix(pattern: string) returns (prefix: string)
    ensures prefix == LiteralPrefix(pattern)
  {
    var norm := Normalize(pattern);
    var segs := Split(norm);
    var literal := [];
    var i := 0;
    assert segs[0..] == segs;
    while i < |segs| && !Wild(segs[i])
      invariant 0 <= i <= |segs|
      invariant literal + LiteralSegments(segs[i..]) == LiteralSegments(segs)
    {
      assert segs[i..][1..] == segs[i + 1..];
      literal := literal + [segs[i]];
      i := i + 1;
    }
    assert literal == LiteralSegments(segs);
    prefix := Join(literal);
  }

  predicate PatternsOverlap(a: string, b: string) {
    if NormalizeRelPath(a) == NormalizeRelPath(b) then true
    else
      var pa, pb := LiteralPrefix(a), LiteralPrefix(b);
      if pa == "" || pb == "" then true else Test(GlobSource(a), pb) || Test(GlobSource(b), pa)
  }

  // ---- When the overlap test is right to say no ----

  /** The test says the two overlap, or they do not meet. */
  predicate TestIsRight(a: string, b: string) {
    PatternsOverlap(a, b) || !Meets(a, b)
  }

  /** The same for paths that may be written: the test says the two overlap, or they do not meet safely. */
  predicate TestProtects(a: string, b: string) {
    PatternsOverlap(a, b) || !MeetSafely(a, b)
  }

  /**
   * The test calls itself conservative: a "no" is to mean that no path is accepted by both patterns. For all patterns a
   * "no" means that if and only if the two do not meet.
   */
  lemma NoIsRightExactly(a: string, b: string)
    requires !PatternsOverlap(a, b)
    ensures (forall path :: !(GlobMatch(a, path) && GlobMatch(b, path))) <==> TestIsRight(a, b)
  {
    hide GlobMatch, PatternsOverlap, Meets;
    PathsMeet(a, b);
  }

  // ---- Shapes on which it always is ----

  predicate Literal(segs: seq<string>) {
    forall i :: 0 <= i < |segs| ==> !Wild(segs[i])
  }

  /** A literal path, a literal directory followed by a final double star, or a pattern that starts with a wildcard segment. */
  predicate Decided(pattern: string) {
    var segs := Split(NormalizeRelPath(pattern));
    Literal(segs) || (|segs| > 1 && Literal(segs[..|segs| - 1]) && segs[|segs| - 1] == "**") || Wild(segs[0])
  }

  lemma {:induction false} LiteralSegmentMatches(pat: string, seg: string)
    requires !Wild(pat)
    ensures SegmentMatches(pat, seg) <==> pat == seg
  {
    if pat != [] {
      assert pat[0] !in {'*', '?'};
      if seg != [] {
        assert !Wild(pat[1..]) by {
          assert forall i :: 0 <= i < |pat[1..]| ==> pat[1..][i] == pat[i + 1];
        }
        LiteralSegmentMatches(pat[1..], seg[1..]);
        assert pat == [pat[0]] + pat[1..] && seg == [seg[0]] + seg[1..];
      }
    }
  }

  lemma DoubleStarIsWild()
    ensures Wild("**")
  {
    assert "**"[0] == '*';
  }

  /** A literal pattern matches itself and nothing else. */
  lemma {:induction false} LiteralMatches(pats: seq<string>, segs: seq<string>)
    requires Literal(pats)
    ensures SegmentsMatch(pats, segs) <==> pats == segs
  {
    DoubleStarIsWild();
    if pats != [] {
      assert Literal(pats[1..]);
      if segs != [] {
        LiteralSegmentMatches(pats[0], segs[0]);
        LiteralMatches(pats[1..], segs[1..]);
        assert pats == [pats[0]] + pats[1..] && segs == [segs[0]] + segs[1..];
      }
    }
  }

  /** A directory pattern matches what lies strictly below the directory, line terminators aside. */
  lemma {:induction false} DirectoryMatches(dir: seq<string>, segs: seq<string>)
    requires Literal(dir)
    ensures SegmentsMatch(dir + ["**"], segs) <==> |dir| < |segs| && segs[..|dir|] == dir && AllClean(segs[|dir|..])
  {
    DoubleStarIsWild();
    if dir == [] {
      assert dir + ["**"] == ["**"] && segs[..0] == [] && segs[0..] == segs;
    } else {
      assert (dir + ["**"])[1..] == dir[1..] + ["**"];
      assert Literal(dir[1..]);
      if segs != [] {
        LiteralSegmentMatches(dir[0], segs[0]);
        DirectoryMatches(dir[1..], segs[1..]);
        assert dir == [dir[0]] + dir[1..];
        if |dir| <= |segs| {
          assert segs[..|dir|] == [segs[0]] + segs[1..][..|dir| - 1] && segs[1..][|dir| - 1..] == segs[|dir|..];
        }
      }
    }
  }

  lemma {:induction false} LiteralSegmentsOf(dir: seq<string>, tail: seq<string>)
    requires Literal(dir) && (tail != [] ==> Wild(tail[0]))
    ensures LiteralSegments(dir + tail) == dir
  {
    if dir == [] {
      assert dir + tail == tail;
    } else {
      assert (dir + tail)[1..] == dir[1..] + tail;
      assert Literal(dir[1..]);
      LiteralSegmentsOf(dir[1..], tail);
    }
  }

  /** The literal part of a decided pattern, and whether everything below it is meant. */
  function Base(pattern: string): seq<string> {
    LiteralSegments(Split(NormalizeRelPath(pattern)))
  }

  predicate IsDirectory(pattern: string) {
    !Literal(Split(NormalizeRelPath(pattern)))
  }

  /** What a decided pattern with a literal start accepts, by its base alone. */
  lemma DecidedMeans(pattern: string, segs: seq<string>)
    requires Decided(pattern) && !Wild(Split(NormalizeRelPath(pattern))[0])
    ensures var base := Base(pattern);
            && base != [] && Literal(base)
            && Split(NormalizeRelPath(pattern)) == (if IsDirectory(pattern) then base + ["**"] else base)
            && (SegmentsMatch(Split(NormalizeRelPath(pattern)), segs) <==>
                  if IsDirectory(pattern) then |base| < |segs| && segs[..|base|] == base && AllClean(segs[|base|..])
                  else segs == base)
  {
    hide NormalizeRelPath, Split, SegmentsMatch, LiteralSegments;
    var pats := Split(NormalizeRelPath(pattern));
    DoubleStarIsWild();
    if Literal(pats) {
      LiteralSegmentsOf(pats, []);
      assert pats + [] == pats;
      LiteralMatches(pats, segs);
    } else {
      var dir := pats[..|pats| - 1];
      assert pats == dir + ["**"];
      LiteralSegmentsOf(dir, ["**"]);
      DirectoryMatches(dir, segs);
    }
  }

  lemma BaseIsSlashFree(pattern: string)
    requires Decided(pattern) && !Wild(Split(NormalizeRelPath(pattern))[0])
    ensures Base(pattern) != [] && Split(LiteralPrefix(pattern)) == Base(pattern)
  {
    DecidedMeans(pattern, []);
    var pats, base := Split(NormalizeRelPath(pattern)), Base(pattern);
    assert forall i :: 0 <= i < |base| ==> base[i] == pats[i];
    SplitJoin(base);
  }

  /** When the test says no, one base does not lie below the other, and the patterns are not the same. */
  lemma NoOverlapMeans(a: string, b: string)
    requires Decided(a) && Decided(b) && !PatternsOverlap(a, b)
    ensures !Wild(Split(NormalizeRelPath(a))[0]) && !Wild(Split(NormalizeRelPath(b))[0])
    ensures NormalizeRelPath(a) != NormalizeRelPath(b)
    ensures !SegmentsMatch(Split(NormalizeRelPath(a)), Base(b)) && !SegmentsMatch(Split(NormalizeRelPath(b)), Base(a))
  {
    BaseIsSlashFree(a);
    BaseIsSlashFree(b);
    TestMeans(a, LiteralPrefix(b));
    TestMeans(b, LiteralPrefix(a));
  }

  lemma SameSegments(x: string, y: string)
    requires Split(x) == Split(y)
    ensures x == y
  {
    JoinSplit(x);
    JoinSplit(y);
  }

  predicate LiteralPattern(pattern: string) {
    Literal(Split(NormalizeRelPath(pattern)))
  }

  /** One of the two is a literal path, or both are decided. */
  predicate Separable(a: string, b: string) {
    LiteralPattern(a) || LiteralPattern(b) || (Decided(a) && Decided(b))
  }

  /** Two separable patterns that the test says do not overlap accept no common path. */
  lemma NoCommonPath(a: string, b: string, path: string)
    requires Separable(a, b) && !PatternsOverlap(a, b)
    ensures !(GlobMatch(a, path) && GlobMatch(b, path))
  {
    if LiteralPattern(a) {
      LiteralApart(a, b, path);
    } else if LiteralPattern(b) {
      LiteralApart(b, a, path);
    } else {
      DecidedApart(a, b, path);
    }
  }

  /** On separable patterns the test is right, whatever it says. */
  lemma SeparableIsRight(a: string, b: string)
    requires Separable(a, b)
    ensures TestIsRight(a, b) && TestProtects(a, b)
  {
    hide GlobMatch, PatternsOverlap, Meets, MeetSafely, Separable, IsSafeRelativePath;
    PathsMeet(a, b);
    SafePathsMeet(a, b);
    if !PatternsOverlap(a, b) {
      forall path ensures !(GlobMatch(a, path) && GlobMatch(b, path)) {
        NoCommonPath(a, b, path);
      }
    }
  }

  /** A literal pattern accepts the path it is, which is what the test tries against the other pattern, of whatever form. */
  lemma LiteralApart(a: string, b: string, path: string)
    requires LiteralPattern(a) && !PatternsOverlap(a, b)
    ensures !(GlobMatch(a, path) && GlobMatch(b, path))
  {
    var pats := Split(NormalizeRelPath(a));
    LiteralSegmentsOf(pats, []);
    assert pats + [] == pats;
    JoinSplit(NormalizeRelPath(a));
    LiteralMatches(pats, Split(NormalizeRelPath(path)));
    TestMeans(b, LiteralPrefix(a));
    GlobMeansSegments(a, path);
    GlobMeansSegments(b, path);
    hide SegmentsMatch, LiteralSegments, Literal, Split, Join, NormalizeRelPath, Test, GlobSource;
  }

  lemma DecidedApart(a: string, b: string, path: string)
    requires Decided(a) && Decided(b) && !PatternsOverlap(a, b)
    ensures !(GlobMatch(a, path) && GlobMatch(b, path))
  {
    NoOverlapMeans(a, b);
    GlobMeansSegments(a, path);
    GlobMeansSegments(b, path);
    if GlobMatch(a, path) && GlobMatch(b, path) {
      var segs := Split(NormalizeRelPath(path));
      var ba, bb := Base(a), Base(b);
      DecidedMeans(a, segs);
      DecidedMeans(b, segs);
      DecidedMeans(a, bb);
      DecidedMeans(b, ba);
      if |ba| < |bb| {
        Below(segs, ba, bb);
      } else if |bb| < |ba| {
        Below(segs, bb, ba);
      } else {
        assert ba == bb;
        if IsDirectory(a) == IsDirectory(b) {
          SameSegments(NormalizeRelPath(a), NormalizeRelPath(b));
        }
      }
    }
  }

  /** Of two bases of one path, the shorter starts the longer, and what is between them is as clean as the path. */
  lemma Below(segs: seq<string>, short: seq<string>, long: seq<string>)
    requires |short| < |long| <= |segs| && segs[..|short|] == short && segs[..|long|] == long
    ensures long[..|short|] == short && (AllClean(segs[|short|..]) ==> AllClean(long[|short|..]))
  {
    assert segs[..|long|][..|short|] == segs[..|short|];
    assert forall i :: 0 <= i < |long| - |short| ==> long[|short|..][i] == segs[|short|..][i];
  }

  // ---- Pairs on which it is wrong ----

  lemma LiteralMeets(p: string, st: State)
    requires !Wild(p)
    ensures SegmentsMeet(p, p, st) <==> Allowed(st, p)
  {
    LiteralSegmentMatches(p, p);
    if Allowed(st, p) {
      CommonTextMeets(p, p, p, st);
    }
    if SegmentsMeet(p, p, st) {
      var s := MeetingText(p, p, st);
      LiteralSegmentMatches(p, s);
    }
  }

  /** Below one literal directory two patterns meet as what follows the directory does, if the directory is allowed. */
  lemma {:induction false} SameDirectoryMeets(dir: seq<string>, ps: seq<string>, qs: seq<string>, rule: Rule, first: bool)
    requires Literal(dir) && ps != [] && qs != []
    ensures PatternsMeet(dir + ps, dir + qs, rule, first)
            <==> AllAllowed(dir, rule, first) && PatternsMeet(ps, qs, rule, first && dir == [])
  {
    if dir == [] {
      assert dir + ps == ps && dir + qs == qs;
    } else {
      var d, rest := dir[0], dir[1..];
      assert !Wild(d) && Literal(rest);
      DoubleStarIsWild();
      LiteralMeets(d, Starting(rule, first));
      SameDirectoryMeets(rest, ps, qs, rule, false);
      assert dir == [d] + rest;
      hide Wild, Literal, SegmentsMeet, Allowed, AllAllowed, Starting;
      Uncons(dir, ps);
      Uncons(dir, qs);
      SameFirst(d, rest + ps, rest + qs, rule, first);
      AllowedUncons(d, rest, rule, first);
    }
  }

  lemma Uncons(dir: seq<string>, tail: seq<string>)
    requires dir != []
    ensures dir + tail == [dir[0]] + (dir[1..] + tail)
  {}

  lemma SameFirst(d: string, ps: seq<string>, qs: seq<string>, rule: Rule, first: bool)
    requires d != "**" && ps != [] && qs != []
    ensures PatternsMeet([d] + ps, [d] + qs, rule, first)
            <==> SegmentsMeet(d, d, Starting(rule, first)) && PatternsMeet(ps, qs, rule, false)
  {
    hide SegmentsMeet, Starting;
    assert ([d] + ps)[1..] == ps && ([d] + qs)[1..] == qs;
    assert [d] + ps != ["**"] && [d] + qs != ["**"];
  }

  lemma AllowedUncons(d: string, rest: seq<string>, rule: Rule, first: bool)
    ensures AllAllowed([d] + rest, rule, first) <==> Allowed(Starting(rule, first), d) && AllAllowed(rest, rule, false)
  {
    hide Allowed;
    var all := [d] + rest;
    assert all[0] == d && all[1..] == rest;
    if AllAllowed(all, rule, first) {
      AllowedTail(all, rule, first);
    }
    if Allowed(Starting(rule, first), d) && AllAllowed(rest, rule, false) {
      AllowedCons(d, rest, rule, first);
    }
  }

  /** Two patterns of a common directory in normal form meet as what follows it does. */
  lemma SameDirectoryNormally(a: string, b: string, dir: seq<string>, ps: seq<string>, qs: seq<string>)
    requires Literal(dir) && dir != [] && ps != [] && qs != []
    requires SegmentsOf(a) == dir + ps && SegmentsOf(b) == dir + qs
    ensures Meets(a, b) <==> PatternsMeet(ps, qs, Normal, false)
  {
    hide NormalizeRelPath, Split, NormalSegments, PatternsMeet, SegmentsMatch, AllAllowed, Literal;
    FirstIsNoDot(a, dir, ps);
    NormallyAllowed(dir);
    SameDirectoryMeets(dir, ps, qs, Normal, true);
    DirectoryIsNoDot(dir, ps);
  }

  lemma FirstIsNoDot(pattern: string, dir: seq<string>, tail: seq<string>)
    requires SegmentsOf(pattern) == dir + tail && dir != [] && tail != []
    ensures dir[0] != "."
  {
    hide NormalizeRelPath, Split, NormalSegments;
    NormalAt(pattern);
    assert (dir + tail)[0] == dir[0] && |dir + tail| > 1;
  }

  /** A directory and more does not match a single dot. */
  lemma DirectoryIsNoDot(dir: seq<string>, tail: seq<string>)
    requires Literal(dir) && dir != [] && tail != []
    ensures !SegmentsMatch(dir + tail, ["."])
  {
    DoubleStarIsWild();
    assert !Wild(dir[0]);
    assert (dir + tail)[0] == dir[0] && ["."][1..] == [] && (dir + tail)[1..] != [];
    NoSegmentsLeft((dir + tail)[1..]);
  }

  /**
   * The nearest pair is a directory pattern against what has one more segment
   * with a wildcard, other than a double star, below the same directory. They are said not to overlap; they meet unless
   * that segment holds a line terminator, and every clean path the second accepts the first accepts too.
   */
  lemma DirectoryTestMisses(a: string, b: string, dir: seq<string>, seg: string)
    requires Literal(dir) && dir != [] && dir != [""] && Wild(seg) && seg != "**"
    requires SegmentsOf(a) == dir + ["**"] && SegmentsOf(b) == dir + [seg]
    ensures !PatternsOverlap(a, b) && (TestIsRight(a, b) <==> !NoLineTerminator(seg))
    ensures forall path :: GlobMatch(b, path) && AllClean(Split(NormalizeRelPath(path))) ==> GlobMatch(a, path)
  {
    DirectoriesApart(a, b, dir, seg);
    SameDirectoryNormally(a, b, dir, ["**"], [seg]);
    FinalMeets(seg);
    forall path | GlobMatch(b, path) && AllClean(Split(NormalizeRelPath(path))) ensures GlobMatch(a, path) {
      var segs := Split(NormalizeRelPath(path));
      GlobMeansSegments(a, path);
      GlobMeansSegments(b, path);
      BelowMatches(dir, seg, segs);
      DirectoryMatches(dir, segs);
      assert forall i :: 0 <= i < |segs| - |dir| ==> segs[|dir|..][i] == segs[i + |dir|];
    }
  }

  lemma FinalMeets(seg: string)
    ensures PatternsMeet(["**"], [seg], Normal, false) <==> NoLineTerminator(seg)
  {
    StarMeets(seg);
    hide SegmentsMeet;
    assert [seg][0] == seg && [seg][1..] == [] && Usable([], Normal, false);
    assert Usable([seg], Normal, false);
    assert AllClean([seg]) <==> NoLineTerminator(seg);
  }

  lemma DirectoriesApart(a: string, b: string, dir: seq<string>, seg: string)
    requires Literal(dir) && dir != [] && dir != [""] && Wild(seg) && seg != "**"
    requires SegmentsOf(a) == dir + ["**"] && SegmentsOf(b) == dir + [seg]
    ensures !PatternsOverlap(a, b)
  {
    assert Split("") == [""];
    hide SegmentsMatch, LiteralSegments, Literal, Split, Join, NormalizeRelPath, Test, GlobSource, AllClean;
    DoubleStarIsWild();
    LiteralSegmentsOf(dir, ["**"]);
    LiteralSegmentsOf(dir, [seg]);
    DirectoryMatches(dir, dir);
    BelowMatches(dir, seg, dir);
    assert (dir + ["**"])[|dir|] != (dir + [seg])[|dir|];
    assert forall i :: 0 <= i < |dir| ==> dir[i] == Split(NormalizeRelPath(a))[i];
    SplitJoin(dir);
    TestMeans(a, Join(dir));
    TestMeans(b, Join(dir));
  }

  /** A literal directory and one segment pattern accept paths of exactly one segment more. */
  lemma {:induction false} BelowMatches(dir: seq<string>, seg: string, segs: seq<string>)
    requires Literal(dir) && seg != "**"
    ensures SegmentsMatch(dir + [seg], segs) ==> |segs| == |dir| + 1 && segs[..|dir|] == dir
  {
    DoubleStarIsWild();
    if dir == [] {
      assert dir + [seg] == [seg] && segs[..0] == [] && [seg][1..] == [];
      assert segs != [] ==> (SegmentsMatch([], segs[1..]) <==> segs[1..] == []);
    } else {
      assert (dir + [seg])[1..] == dir[1..] + [seg];
      assert Literal(dir[1..]);
      if segs != [] {
        LiteralSegmentMatches(dir[0], segs[0]);
        BelowMatches(dir[1..], seg, segs[1..]);
        assert dir == [dir[0]] + dir[1..];
        if |dir| <= |segs| {
          assert segs[..|dir|] == [segs[0]] + segs[1..][..|dir| - 1];
        }
      }
    }
  }

  /** Wildcards in different places are another such pair: d, star, n and d, m, star both accept d, m, n. */
  lemma OverlapTestCanMiss(a: string, b: string, d: string, m: string, n: string)
    requires !Wild(d) && d != "" && !Wild(m) && !Wild(n)
    requires SegmentsOf(a) == [d, "*", n] && SegmentsOf(b) == [d, m, "*"]
    ensures !PatternsOverlap(a, b) && !TestIsRight(a, b)
  {
    TestSaysNo(a, b, d, m, n);
    CrossedStarsMeet(m, n);
    assert Literal([d]);
    hide PatternsOverlap, NormalizeRelPath, Split, PatternsMeet, Meets, Wild, Literal;
    assert [d] + ["*", n] == [d, "*", n] && [d] + [m, "*"] == [d, m, "*"];
    SameDirectoryNormally(a, b, [d], ["*", n], [m, "*"]);
  }

  lemma CrossedStarsMeet(m: string, n: string)
    requires !Wild(m) && !Wild(n)
    ensures PatternsMeet(["*", n], [m, "*"], Normal, false)
  {
    DoubleStarIsWild();
    StarMeets(m);
    StarMeets(n);
    hide Wild, SegmentsMeet;
    assert ["*", n][1..] == [n] && [m, "*"][1..] == ["*"] && [n][1..] == [] && ["*"][1..] == [];
    assert PatternsMeet([n], ["*"], Normal, false);
  }

  lemma TestSaysNo(a: string, b: string, d: string, m: string, n: string)
    requires !Wild(d) && d != "" && !Wild(m) && !Wild(n)
    requires SegmentsOf(a) == [d, "*", n] && SegmentsOf(b) == [d, m, "*"]
    ensures !PatternsOverlap(a, b)
  {
    assert "*"[0] == '*';
    assert [d, "*", n][1] == "*" && [d, m, "*"][1] == m && [d, "*", n][0] == d;
    hide SegmentsMatch, Test, GlobSource, Join, LiteralSegments, Wild, NormalizeRelPath;
    BasesMiss(d, m, n);
    SplitJoin([d]);
    SplitJoin([d, m]);
    JoinOne(d);
    JoinOne(m);
    JoinCons(d, [m]);
    assert [d] + [m] == [d, m];
    TestMeans(a, Join([d, m]));
    TestMeans(b, Join([d]));
  }

  lemma BasesMiss(d: string, m: string, n: string)
    requires !Wild(d) && !Wild(m) && !Wild(n)
    ensures LiteralSegments([d, "*", n]) == [d] && LiteralSegments([d, m, "*"]) == [d, m]
    ensures !SegmentsMatch([d, "*", n], [d, m]) && !SegmentsMatch([d, m, "*"], [d])
  {
    DoubleStarIsWild();
    assert "*"[0] == '*';
    assert Wild("*") && "*" != "**";
    LiteralSegmentsOf([d], ["*", n]);
    LiteralSegmentsOf([d, m], ["*"]);
    assert [d] + ["*", n] == [d, "*", n] && [d, m] + ["*"] == [d, m, "*"];
    assert [d, "*", n][1..] == ["*", n] && [d, m][1..] == [m] && ["*", n][1..] == [n] && [m][1..] == [];
    assert [d, m, "*"][1..] == [m, "*"] && [d][1..] == [];
    NoSegmentsLeft([n]);
    NoSegmentsLeft([m, "*"]);
  }

  // ---- Enforcement ----

  datatype ViolationCode = OutOfScopeWrite | UnsafePath | ProtectedPathWrite

  datatype Violation = Violation(path: string, code: ViolationCode)

  predicate InScope(patterns: seq<string>, raw: string) {
    IsSafeRelativePath(NormalizeRelPath(raw)) && GlobMatchAny(patterns, NormalizeRelPath(raw))
  }

  predicate Protected(patterns: seq<string>, raw: string) {
    GlobMatchAny(patterns, NormalizeRelPath(raw))
  }

  /** A changed path is in scope however it is spelled, and whatever the spelling of the patterns. */
  lemma SpellingKeepsScope(patterns: seq<string>, raw: string)
    ensures InScope(patterns, "./" + raw) == InScope(patterns, raw) && Protected(patterns, "./" + raw) == Protected(patterns, raw)
    ensures InScope(patterns, raw) ==> InScope(patterns, raw + "/")
  {
    LeadingDotIsDropped(raw);
    TrailingSlashIsDropped(raw);
    NormalizedTwice(raw);
    SpellingIsNoMatter("", NormalizeRelPath(raw));
    hide GlobMatchAny, NormalizeRelPath;
    if NormalizeRelPath(raw) == "." {
      NoDotIsSafe();
    }
  }

  lemma NoDotIsSafe()
    ensures !IsSafeRelativePath(".") && !IsSafeRelativePath("")
  {
    assert NormalizeRelPath(".") == "." && NormalizeRelPath("") == "";
    assert Split(".")[0] == ".";
  }

  /** One violation for each changed path outside the scope, in order; none when every path is safe and in scope. */
  method EnforceWriteScope(patterns: seq<string>, changed: seq<string>) returns (violations: seq<Violation>)
    ensures violations == [] <==> forall raw :: raw in changed ==> InScope(patterns, raw)
    ensures forall raw :: Violation(raw, UnsafePath) in violations <==>
              raw in changed && !IsSafeRelativePath(NormalizeRelPath(raw))
    ensures forall raw :: Violation(raw, OutOfScopeWrite) in violations <==>
              raw in changed && IsSafeRelativePath(NormalizeRelPath(raw)) && !InScope(patterns, raw)
    ensures forall raw :: Violation(raw, ProtectedPathWrite) !in violations
  {
    hide IsSafeRelativePath, GlobMatchAny;
    violations := [];
    for i := 0 to |changed|
      invariant violations == [] <==> forall raw :: raw in changed[..i] ==> InScope(patterns, raw)
      invariant forall raw :: Violation(raw, UnsafePath) in violations <==>
                  raw in changed[..i] && !IsSafeRelativePath(NormalizeRelPath(raw))
      invariant forall raw :: Violation(raw, OutOfScopeWrite) in violations <==>
                  raw in changed[..i] && IsSafeRelativePath(NormalizeRelPath(raw)) && !InScope(patterns, raw)
      invariant forall raw :: Violation(raw, ProtectedPathWrite) !in violations
    {
      assert changed[..i + 1] == changed[..i] + [changed[i]];
      assert changed[i] in changed[..i + 1];
      var path := Normalize(changed[i]);
      if !IsSafeRelativePath(path) {
        violations := violations + [Violation(changed[i], UnsafePath)];
      } else if !GlobMatchAny(patterns, path) {
        violations := violations + [Violation(changed[i], OutOfScopeWrite)];
      }
    }
    assert changed[..|changed|] == changed;
  }

  /** Exactly the changed paths that a protected pattern matches. */
  method EnforceProtectedPaths(patterns: seq<string>, changed: seq<string>) returns (violations: seq<Violation>)
    ensures forall v :: v in violations <==> v.code == ProtectedPathWrite && v.path in changed && Protected(patterns, v.path)
  {
    hide GlobMatch;
    violations := [];
    if patterns == [] {
      return;
    }
    for i := 0 to |changed|
      invariant forall v :: v in violations <==>
                  v.code == ProtectedPathWrite && v.path in changed[..i] && Protected(patterns, v.path)
    {
      assert changed[..i + 1] == changed[..i] + [changed[i]];
      var path := Normalize(changed[i]);
      if GlobMatchAny(patterns, path) {
        violations := violations + [Violation(changed[i], ProtectedPathWrite)];
      }
    }
    assert changed[..|changed|] == changed;
  }

  predicate Overlapping(xs: seq<string>, ys: seq<string>) {
    exists i, j :: 0 <= i < |xs| && 0 <= j < |ys| && PatternsOverlap(xs[i], ys[j])
  }

  /** The test protects every pattern of one scope from every pattern of the other. */
  predicate AllProtected(xs: seq<string>, ys: seq<string>) {
    forall i, j :: 0 <= i < |xs| && 0 <= j < |ys| ==> TestProtects(xs[i], ys[j])
  }

  predicate SomeMeetSafely(xs: seq<string>, ys: seq<string>) {
    exists i, j :: 0 <= i < |xs| && 0 <= j < |ys| && MeetSafely(xs[i], ys[j])
  }

  lemma NormalizedTwice(raw: string)
    ensures NormalizeRelPath(NormalizeRelPath(raw)) == NormalizeRelPath(raw)
  {
    NormalForm(raw);
    NormalForm(NormalizeRelPath(raw));
  }

  /** Some changed path is within both of two write scopes if and only if a pattern of one meets one of the other safely. */
  lemma ScopesShare(xs: seq<string>, ys: seq<string>)
    ensures (exists raw :: InScope(xs, raw) && InScope(ys, raw)) <==> SomeMeetSafely(xs, ys)
  {
    hide GlobMatch, MeetSafely, IsSafeRelativePath, NormalizeRelPath;
    if raw :| InScope(xs, raw) && InScope(ys, raw) {
      var path := NormalizeRelPath(raw);
      NormalizedTwice(raw);
      var i :| 0 <= i < |xs| && GlobMatch(xs[i], path);
      var j :| 0 <= j < |ys| && GlobMatch(ys[j], path);
      SafePathsMeet(xs[i], ys[j]);
    }
    if i, j :| 0 <= i < |xs| && 0 <= j < |ys| && MeetSafely(xs[i], ys[j]) {
      SafePathsMeet(xs[i], ys[j]);
      var path :| IsSafeRelativePath(path) && NormalizeRelPath(path) == path && GlobMatch(xs[i], path) && GlobMatch(ys[j], path);
      assert GlobMatchAny(xs, path) && GlobMatchAny(ys, path);
      assert InScope(xs, path) && InScope(ys, path);
    }
  }

  /** So scopes that the test says do not overlap share no changed path if and only if it protects them. */
  lemma ScopesDisjoint(xs: seq<string>, ys: seq<string>)
    requires !Overlapping(xs, ys)
    ensures (forall raw :: !(InScope(xs, raw) && InScope(ys, raw))) <==> AllProtected(xs, ys)
  {
    hide InScope, PatternsOverlap, MeetSafely;
    ScopesShare(xs, ys);
  }
}
