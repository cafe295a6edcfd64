/**
 * glob.ts: path patterns, compiled to regular expressions, against a segment-wise reading of them.
 */
module Glob {
  import opened RegExp
  import opened Wrappers

  // ---- Paths ----

  function Slashes(p: string): (out: string)
    ensures |out| == |p|
    ensures forall i :: 0 <= i < |p| ==> out[i] == if p[i] == '\\' then '/' else p[i]
  {
    seq(|p|, i requires 0 <= i < |p| => if p[i] == '\\' then '/' else p[i])
  }

  predicate LeadingDot(p: string) {
    |p| >= 2 && p[0] == '.' && p[1] == '/'
  }

  predicate TrailingSlash(p: string) {
    |p| > 1 && p[|p| - 1] == '/'
  }

  function DropLeading(p: string): (out: string)
    ensures !LeadingDot(out) && |out| <= |p|
    decreases |p|
  {
    if LeadingDot(p) then DropLeading(p[2..]) else p
  }

  function DropTrailing(p: string): (out: string)
    ensures !TrailingSlash(out) && |out| <= |p|
    decreases |p|
  {
    if TrailingSlash(p) then DropTrailing(p[..|p| - 1]) else p
  }

  function NormalizeRelPath(p: string): string {
    DropTrailing(DropLeading(Slashes(p)))
  }

  /** The loops of normalizeRelPath. */
  method Normalize(p: string) returns (out: string)
    ensures out == NormalizeRelPath(p)
  {
    out := Slashes(p);
    while LeadingDot(out)
      invariant DropLeading(out) == DropLeading(Slashes(p))
      decreases |out|
    {
      out := out[2..];
    }
    while TrailingSlash(out)
      invariant DropTrailing(out) == NormalizeRelPath(p)
      decreases |out|
    {
      out := out[..|out| - 1];
    }
  }

  // ---- What the normal form is ----

  function Copies(piece: string, n: nat): string {
    if n == 0 then "" else piece + Copies(piece, n - 1)
  }

  /** A text without backslashes: "./" a number of times, then `norm`, then slashes. */
  predicate Peels(s: string, m: nat, norm: string, n: nat) {
    && s == Copies("./", m) + (norm + Copies("/", n))
    && !LeadingDot(norm + Copies("/", n)) && !TrailingSlash(norm) && (norm == "" ==> n == 0)
  }

  lemma {:induction false} SlashesAtEnd(norm: string, n: nat)
    ensures norm + Copies("/", n + 1) == norm + Copies("/", n) + "/"
    decreases n
  {
    if n > 0 {
      SlashesAtEnd(norm + "/", n - 1);
      assert norm + Copies("/", n + 1) == (norm + "/") + Copies("/", n);
      assert norm + Copies("/", n) == (norm + "/") + Copies("/", n - 1);
    } else {
      assert Copies("/", 0) == "" && Copies("/", 1) == "/";
    }
  }

  lemma {:induction false} LeadingPeels(s: string) returns (m: nat)
    ensures s == Copies("./", m) + DropLeading(s)
    decreases |s|
  {
    if LeadingDot(s) {
      var k := LeadingPeels(s[2..]);
      m := k + 1;
      assert s == "./" + s[2..];
    } else {
      m := 0;
      assert Copies("./", 0) == "";
    }
  }

  lemma {:induction false} TrailingPeels(s: string) returns (n: nat)
    ensures s == DropTrailing(s) + Copies("/", n) && (DropTrailing(s) == "" ==> n == 0)
    decreases |s|
  {
    if TrailingSlash(s) {
      var init := s[..|s| - 1];
      var k := TrailingPeels(init);
      n := k + 1;
      SlashesAtEnd(DropTrailing(init), k);
      assert s == init + "/";
    } else {
      n := 0;
      assert Copies("/", 0) == "";
    }
  }

  lemma {:induction false} PeeledLeading(m: nat, rest: string)
    requires !LeadingDot(rest)
    ensures DropLeading(Copies("./", m) + rest) == rest
  {
    if m == 0 {
      assert Copies("./", 0) + rest == rest;
    } else {
      var s := Copies("./", m) + rest;
      assert s == "./" + (Copies("./", m - 1) + rest);
      assert s[0] == '.' && s[1] == '/' && s[2..] == Copies("./", m - 1) + rest;
      PeeledLeading(m - 1, rest);
    }
  }

  lemma {:induction false} PeeledTrailing(norm: string, n: nat)
    requires !TrailingSlash(norm) && (norm == "" ==> n == 0)
    ensures DropTrailing(norm + Copies("/", n)) == norm
  {
    if n == 0 {
      assert norm + Copies("/", 0) == norm;
    } else {
      SlashesAtEnd(norm, n - 1);
      var s := norm + Copies("/", n);
      assert s[..|s| - 1] == norm + Copies("/", n - 1);
      PeeledTrailing(norm, n - 1);
    }
  }

  /**
   * The normal form of a path is what is left of it, with slashes for backslashes, when every leading "./" and every
   * trailing slash is taken off, short of the last character: it is that, and nothing else is.
   */
  lemma NormalFormMeans(p: string, norm: string)
    ensures NormalizeRelPath(p) == norm <==> exists m, n :: Peels(Slashes(p), m, norm, n)
  {
    var s := Slashes(p);
    if NormalizeRelPath(p) == norm {
      var m := LeadingPeels(s);
      var n := TrailingPeels(DropLeading(s));
      assert Peels(s, m, norm, n);
    }
    if m, n :| Peels(s, m, norm, n) {
      PeeledLeading(m, norm + Copies("/", n));
      PeeledTrailing(norm, n);
    }
  }

  /** So a path and its spelling with a leading "./" have one normal form. */
  lemma LeadingDotIsDropped(p: string)
    ensures NormalizeRelPath("./" + p) == NormalizeRelPath(p)
  {
    assert Slashes("./" + p) == "./" + Slashes(p);
    assert ("./" + Slashes(p))[2..] == Slashes(p);
  }

  /** And so, but for the empty path and the single dot, do a path and its spelling with a trailing slash. */
  lemma TrailingSlashIsDropped(p: string)
    ensures NormalizeRelPath(p + "/") ==
            if NormalizeRelPath(p) == "" then "/" else if NormalizeRelPath(p) == "." then "" else NormalizeRelPath(p)
  {
    var s := Slashes(p);
    assert Slashes(p + "/") == s + "/";
    DropLeadingConcat(s);
    hide Slashes;
    OneMoreSlash(DropLeading(s));
  }

  lemma OneMoreSlash(rest: string)
    requires !LeadingDot(rest)
    ensures var norm := DropTrailing(rest);
            DropTrailing(DropLeading(rest + "/")) == if norm == "" then "/" else if norm == "." then "" else norm
  {
    if rest == "." {
      assert "./"[2..] == "";
    } else if rest != "" {
      assert rest == [rest[0]] + rest[1..];
      assert (rest + "/")[..|rest|] == rest && !LeadingDot(rest + "/");
      if TrailingSlash(rest) {
        DropTrailingIsNoDot(rest);
      }
    }
  }

  lemma {:induction false} DropLeadingConcat(s: string)
    ensures DropLeading(s + "/") == DropLeading(DropLeading(s) + "/")
    decreases |s|
  {
    if LeadingDot(s) {
      assert (s + "/")[2..] == s[2..] + "/";
      DropLeadingConcat(s[2..]);
    }
  }

  /** A text that does not start with a dot and a slash is not trimmed to a single dot, nor to nothing. */
  lemma {:induction false} DropTrailingIsNoDot(s: string)
    requires !LeadingDot(s) && TrailingSlash(s)
    ensures DropTrailing(s) != "." && DropTrailing(s) != ""
    decreases |s|
  {
    if TrailingSlash(s[..|s| - 1]) {
      DropTrailingIsNoDot(s[..|s| - 1]);
    }
  }

  predicate NoSlash(s: string) {
    forall i :: 0 <= i < |s| ==> s[i] != '/'
  }

  /** Where the first segment ends. */
  function FirstSlash(s: string): (i: nat)
    ensures i <= |s| && NoSlash(s[..i]) && (i < |s| ==> s[i] == '/')
  {
    if s == [] || s[0] == '/' then 0
    else
      var i := 1 + FirstSlash(s[1..]);
      assert s[..i] == [s[0]] + s[1..][..i - 1];
      i
  }

  function Split(s: string): (segs: seq<string>)
    ensures segs != [] && forall i :: 0 <= i < |segs| ==> NoSlash(segs[i])
    decreases |s|
  {
    var i := FirstSlash(s);
    if i == |s| then
      assert s[..i] == s;
      [s]
    else [s[..i]] + Split(s[i + 1..])
  }

  function Join(segs: seq<string>): string {
    if segs == [] then "" else if |segs| == 1 then segs[0] else segs[0] + "/" + Join(segs[1..])
  }

  lemma FirstSlashAt(s: string, i: nat)
    requires i <= |s| && NoSlash(s[..i]) && (i < |s| ==> s[i] == '/')
    ensures FirstSlash(s) == i
  {
    var k := FirstSlash(s);
    assert forall j :: 0 <= j < i ==> s[j] == s[..i][j] && s[j] != '/';
    assert forall j :: 0 <= j < k ==> s[j] == s[..k][j] && s[j] != '/';
  }

  lemma {:induction false} SplitJoin(segs: seq<string>)
    requires segs != [] && forall i :: 0 <= i < |segs| ==> NoSlash(segs[i])
    ensures Split(Join(segs)) == segs
  {
    var s := Join(segs);
    if |segs| == 1 {
      assert s[..|s|] == s;
      FirstSlashAt(s, |s|);
      assert segs == [s];
    } else {
      assert s[..|segs[0]|] == segs[0] && s[|segs[0]| + 1..] == Join(segs[1..]);
      FirstSlashAt(s, |segs[0]|);
      SplitJoin(segs[1..]);
    }
  }

  lemma JoinCons(seg: string, segs: seq<string>)
    requires segs != []
    ensures Join([seg] + segs) == seg + "/" + Join(segs)
  {
    assert ([seg] + segs)[1..] == segs;
  }

  lemma {:induction false} JoinSplit(s: string)
    ensures Join(Split(s)) == s
    decreases |s|
  {
    hide Join;
    var i := FirstSlash(s);
    if i < |s| {
      JoinSplit(s[i + 1..]);
      JoinCons(s[..i], Split(s[i + 1..]));
      assert s == s[..i] + "/" + s[i + 1..];
    } else {
      JoinOne(s);
    }
  }

  lemma JoinOne(s: string)
    ensures Join([s]) == s
  {}

  predicate Letter(c: char) {
    'a' <= c <= 'z' || 'A' <= c <= 'Z'
  }

  predicate IsSafeRelativePath(p: string) {
    var norm := NormalizeRelPath(p);
    && norm != ""
    && norm[0] != '/' && !(|norm| >= 2 && Letter(norm[0]) && norm[1] == ':')
    && forall i :: 0 <= i < |Split(norm)| ==> Split(norm)[i] != "" && Split(norm)[i] != "." && Split(norm)[i] != ".."
  }

  /** Where segments lead from a directory: a dot or an empty one stays, two dots go up, and nothing goes above the start. */
  function Walk(at: seq<string>, segs: seq<string>): Option<seq<string>>
    decreases |segs|
  {
    if segs == [] then Some(at)
    else if segs[0] in {"", "."} then Walk(at, segs[1..])
    else if segs[0] == ".." then if at == [] then None else Walk(at[..|at| - 1], segs[1..])
    else Walk(at + [segs[0]], segs[1..])
  }

  lemma {:induction false} PlainWalk(at: seq<string>, segs: seq<string>)
    requires forall i :: 0 <= i < |segs| ==> segs[i] !in {"", ".", ".."}
    ensures Walk(at, segs) == Some(at + segs)
    decreases |segs|
  {
    if segs != [] {
      PlainWalk(at + [segs[0]], segs[1..]);
      assert (at + [segs[0]]) + segs[1..] == at + segs;
    } else {
      assert at + segs == at;
    }
  }

  lemma {:induction false} EmptyLast(at: seq<string>, segs: seq<string>)
    ensures Walk(at, segs + [""]) == Walk(at, segs)
    decreases |segs|
  {
    if segs != [] {
      assert (segs + [""])[0] == segs[0] && (segs + [""])[1..] == segs[1..] + [""];
      if segs[0] in {"", "."} {
        EmptyLast(at, segs[1..]);
      } else if segs[0] == ".." {
        if at != [] {
          EmptyLast(at[..|at| - 1], segs[1..]);
        }
      } else {
        EmptyLast(at + [segs[0]], segs[1..]);
      }
    } else {
      assert [] + [""] == [""] && [""][1..] == [];
    }
  }

  lemma {:induction false} SplitLast(s: string)
    ensures Split(s + "/") == Split(s) + [""]
    decreases |s|
  {
    var i := FirstSlash(s);
    assert (s + "/")[..i] == s[..i];
    SlashStaysFirst(s, i);
    if i < |s| {
      assert (s + "/")[i + 1..] == s[i + 1..] + "/";
      SplitLast(s[i + 1..]);
    } else {
      assert (s + "/")[i + 1..] == "" && Split("") == [""] && s[..i] == s;
    }
  }

  lemma {:induction false} SlashStaysFirst(s: string, i: nat)
    requires i == FirstSlash(s)
    ensures FirstSlash(s + "/") == i
  {
    assert forall k :: 0 <= k < |s| ==> (s + "/")[k] == s[k];
    assert (s + "/")[|s|] == '/';
  }

  lemma {:induction false} SlashesWalk(norm: string, n: nat)
    ensures Walk([], Split(norm + Copies("/", n))) == Walk([], Split(norm))
  {
    if n == 0 {
      assert norm + Copies("/", 0) == norm;
    } else {
      SlashesAtEnd(norm, n - 1);
      SplitLast(norm + Copies("/", n - 1));
      EmptyLast([], Split(norm + Copies("/", n - 1)));
      SlashesWalk(norm, n - 1);
    }
  }

  lemma DotFirst(rest: string)
    ensures Split("./" + rest) == ["."] + Split(rest)
  {
    var s := "./" + rest;
    assert s[0] == '.' && s[1] == '/' && s[2..] == rest && s[..1] == ".";
  }

  lemma {:induction false} DotsWalk(m: nat, rest: string)
    ensures Walk([], Split(Copies("./", m) + rest)) == Walk([], Split(rest))
  {
    if m == 0 {
      assert Copies("./", 0) + rest == rest;
    } else {
      assert Copies("./", m) + rest == "./" + (Copies("./", m - 1) + rest);
      DotFirst(Copies("./", m - 1) + rest);
      assert (["."] + Split(Copies("./", m - 1) + rest))[1..] == Split(Copies("./", m - 1) + rest);
      DotsWalk(m - 1, rest);
    }
  }

  /** A safe path, as it is written, leads below the root, to the segments of its normal form and without a detour above it. */
  lemma SafeStaysInside(path: string)
    requires IsSafeRelativePath(path)
    ensures NormalizeRelPath(path) != "" && Walk([], Split(Slashes(path))) == Some(Split(NormalizeRelPath(path)))
  {
    var s, norm := Slashes(path), NormalizeRelPath(path);
    var m := LeadingPeels(s);
    var n := TrailingPeels(DropLeading(s));
    DotsWalk(m, DropLeading(s));
    SlashesWalk(norm, n);
    hide Walk, Split;
    PlainWalk([], Split(norm));
    assert [] + Split(norm) == Split(norm);
  }

  // ---- The compiler ----

  const ANY_SEGMENTS := Term(Group([Term(Class(NotSlash), OneOrMore), Term(Class(Just('/')), One)]), Many)
  const SLASH := Term(Class(Just('/')), One)

  function CharTerm(c: char): Term {
    if c == '*' then Term(Class(NotSlash), Many)
    else if c == '?' then Term(Class(NotSlash), One)
    else Term(Class(Just(c)), One)
  }

  function SegmentTerms(seg: string): seq<Term> {
    if seg == [] then [] else [CharTerm(seg[0])] + SegmentTerms(seg[1..])
  }

  function PatternTerms(pats: seq<string>): seq<Term> {
    if pats == [] then []
    else if pats[0] == "**" then
      if |pats| == 1 then [Term(Class(Dot), Many)] else [ANY_SEGMENTS] + PatternTerms(pats[1..])
    else
      SegmentTerms(pats[0]) + (if |pats| == 1 then [] else [SLASH] + PatternTerms(pats[1..]))
  }

  /** escapeRegex, on one character. */
  function EscapeRegex(c: char): string {
    if Syntax(c) then ['\\', c] else [c]
  }

  lemma TextHead(terms: seq<Term>)
    requires terms != []
    ensures Text(terms) == TermText(terms[0]) + Text(terms[1..])
  {}

  lemma {:induction false} TextConcat(xs: seq<Term>, ys: seq<Term>)
    ensures Text(xs + ys) == Text(xs) + Text(ys)
  {
    if xs == [] {
      assert xs + ys == ys;
    } else {
      hide Text, TermText;
      TextConcat(xs[1..], ys);
      var all := xs + ys;
      assert all[0] == xs[0] && all[1..] == xs[1..] + ys;
      TextHead(xs);
      TextHead(all);
      Associate(TermText(xs[0]), Text(xs[1..]), Text(ys));
    }
  }

  lemma Associate(a: string, b: string, c: string)
    ensures a + (b + c) == a + b + c
  {}

  lemma TextOne(t: Term)
    ensures Text([t]) == TermText(t)
  {
    assert [t][1..] == [];
  }

  method SegmentToRegex(seg: string) returns (out: string)
    ensures out == Text(SegmentTerms(seg))
  {
    out := "";
    for i := 0 to |seg|
      invariant out == Text(SegmentTerms(seg[..i]))
    {
      SegmentTermsSnoc(seg[..i], seg[i]);
      assert seg[..i + 1] == seg[..i] + [seg[i]];
      TextConcat(SegmentTerms(seg[..i]), [CharTerm(seg[i])]);
      TextOne(CharTerm(seg[i]));
      if seg[i] == '*' {
        out := out + "[^/]*";
      } else if seg[i] == '?' {
        out := out + "[^/]";
      } else {
        out := out + EscapeRegex(seg[i]);
      }
    }
    assert seg[..|seg|] == seg;
  }

  lemma {:induction false} SegmentTermsSnoc(seg: string, c: char)
    ensures SegmentTerms(seg + [c]) == SegmentTerms(seg) + [CharTerm(c)]
  {
    if seg == [] {
      assert (seg + [c])[1..] == [];
    } else {
      assert (seg + [c])[1..] == seg[1..] + [c];
      SegmentTermsSnoc(seg[1..], c);
    }
  }

  /** The source text that globToRegExp hands to `new RegExp`. */
  function GlobSource(pattern: string): string {
    "^" + Text(PatternTerms(Split(NormalizeRelPath(pattern)))) + "$"
  }

  /** What the compiler appends for one segment. */
  lemma PatternStep(segs: seq<string>, i: nat)
    requires i < |segs|
    ensures Text(PatternTerms(segs[i..])) ==
            (if segs[i] == "**" then (if i == |segs| - 1 then ".*" else "(?:[^/]+/)*")
             else Text(SegmentTerms(segs[i])) + (if i == |segs| - 1 then "" else "/"))
            + Text(PatternTerms(segs[i + 1..]))
  {
    assert segs[i..][1..] == segs[i + 1..] && segs[i..][0] == segs[i];
    var more := PatternTerms(segs[i + 1..]);
    TextConcat([ANY_SEGMENTS], more);
    TextOne(ANY_SEGMENTS);
    TextOne(Term(Class(Dot), Many));
    AnySegmentsText();
    TextConcat([SLASH], more);
    TextOne(SLASH);
    TextConcat(SegmentTerms(segs[i]), if i == |segs| - 1 then [] else [SLASH] + more);
  }

  method GlobToRegExp(pattern: string) returns (re: string)
    ensures re == GlobSource(pattern)
  {
    hide Text, PatternTerms, SegmentTerms;
    var norm := Normalize(pattern);
    var segs := Split(norm);
    re := "^";
    assert segs[0..] == segs;
    for i := 0 to |segs|
      invariant re + Text(PatternTerms(segs[i..])) == "^" + Text(PatternTerms(segs))
    {
      var isLast := i == |segs| - 1;
      PatternStep(segs, i);
      if segs[i] == "**" {
        if isLast {
          re := re + ".*";
        } else {
          re := re + "(?:[^/]+/)*";
        }
      } else {
        var part := SegmentToRegex(segs[i]);
        re := re + part;
        if !isLast {
          re := re + "/";
        }
      }
    }
    assert segs[|segs|..] == [];
    NoTerms();
    re := re + "$";
  }

  lemma NoTerms()
    ensures Text(PatternTerms([])) == ""
  {}

  lemma AnySegmentsText()
    ensures TermText(ANY_SEGMENTS) == "(?:[^/]+/)*"
  {
    var inner := [Term(Class(NotSlash), OneOrMore), Term(Class(Just('/')), One)];
    assert inner == [inner[0]] + [inner[1]];
    TextConcat([inner[0]], [inner[1]]);
    TextOne(inner[0]);
    TextOne(inner[1]);
  }

  predicate GlobMatch(pattern: string, path: string) {
    Test(GlobSource(pattern), NormalizeRelPath(path))
  }

  predicate GlobMatchAny(patterns: seq<string>, path: string) {
    exists i :: 0 <= i < |patterns| && GlobMatch(patterns[i], path)
  }

  // ---- What a pattern means, segment by segment ----

  /** `*` any run, `?` any one character, anything else itself, all within one segment. */
  predicate SegmentMatches(pat: string, seg: string)
    decreases |pat| + |seg|
  {
    if pat == [] then seg == []
    else if pat[0] == '*' then SegmentMatches(pat[1..], seg) || (seg != [] && SegmentMatches(pat, seg[1..]))
    else seg != [] && (pat[0] == '?' || pat[0] == seg[0]) && SegmentMatches(pat[1..], seg[1..])
  }

  /** No line feed, carriage return, line separator or paragraph separator. */
  predicate NoLineTerminator(s: string) {
    forall i :: 0 <= i < |s| ==> s[i] !in {'\n', '\r', '\U{2028}', '\U{2029}'}
  }

  predicate AllClean(segs: seq<string>) {
    forall i :: 0 <= i < |segs| ==> NoLineTerminator(segs[i])
  }

  /**
   * An inner `**` stands for zero or more whole, non-empty segments, a final `**` for one or more segments of any kind
   * that hold no line terminator.
   */
  predicate SegmentsMatch(pats: seq<string>, segs: seq<string>)
    decreases |pats| + |segs|
  {
    if pats == [] then segs == []
    else if pats[0] == "**" && |pats| == 1 then
      segs != [] && AllClean(segs)
    else if pats[0] == "**" then
      SegmentsMatch(pats[1..], segs) || (segs != [] && segs[0] != "" && SegmentsMatch(pats, segs[1..]))
    else segs != [] && SegmentMatches(pats[0], segs[0]) && SegmentsMatch(pats[1..], segs[1..])
  }

  // ---- The two readings agree ----

  /** `s` starts with a slash-free piece that the segment pattern accepts, and the rest is for the other terms. */
  ghost predicate SplitsAfter(pat: string, more: seq<Term>, s: string) {
    exists k :: 0 <= k <= |s| && NoSlash(s[..k]) && SegmentMatches(pat, s[..k]) && Matches(more, s[k..])
  }

  lemma SplitsStep(pat: string, rest: string, more: seq<Term>, s: string)
    requires s != [] && s[0] != '/'
    requires forall k :: 0 <= k < |s| && SegmentMatches(rest, s[1..][..k]) ==> SegmentMatches(pat, s[..k + 1])
    requires SplitsAfter(rest, more, s[1..])
    ensures SplitsAfter(pat, more, s)
  {
    var k :| 0 <= k <= |s[1..]| && NoSlash(s[1..][..k]) && SegmentMatches(rest, s[1..][..k]) && Matches(more, s[1..][k..]);
    assert s[..k + 1] == [s[0]] + s[1..][..k] && s[k + 1..] == s[1..][k..];
  }

  lemma SplitsBack(pat: string, more: seq<Term>, s: string)
    requires pat != [] && pat[0] != '*' && SplitsAfter(pat, more, s)
    ensures s != [] && s[0] != '/' && (pat[0] == '?' || pat[0] == s[0]) && SplitsAfter(pat[1..], more, s[1..])
  {
    var k :| 0 <= k <= |s| && NoSlash(s[..k]) && SegmentMatches(pat, s[..k]) && Matches(more, s[k..]);
    assert s[..k][0] == s[0] && s[..k][1..] == s[1..][..k - 1] && s[k..] == s[1..][k - 1..];
  }

  lemma StarBack(pat: string, more: seq<Term>, s: string)
    requires pat != [] && pat[0] == '*' && SplitsAfter(pat, more, s)
    ensures SplitsAfter(pat[1..], more, s) || (s != [] && s[0] != '/' && SplitsAfter(pat, more, s[1..]))
  {
    var k :| 0 <= k <= |s| && NoSlash(s[..k]) && SegmentMatches(pat, s[..k]) && Matches(more, s[k..]);
    if !SegmentMatches(pat[1..], s[..k]) {
      assert s[..k][0] == s[0] && s[..k][1..] == s[1..][..k - 1] && s[k..] == s[1..][k - 1..];
    }
  }

  lemma StarSkips(pat: string, more: seq<Term>, s: string)
    requires pat != [] && pat[0] == '*' && SplitsAfter(pat[1..], more, s)
    ensures SplitsAfter(pat, more, s)
  {}

  /** The terms of a segment pattern consume exactly the slash-free pieces it accepts. */
  lemma {:induction false} SegmentTermsMatch(pat: string, more: seq<Term>, s: string)
    requires NoSlash(pat)
    ensures Matches(SegmentTerms(pat) + more, s) <==> SplitsAfter(pat, more, s)
    decreases |pat|, |s|
  {
    if pat == [] {
      assert SegmentTerms(pat) + more == more;
      assert s[..0] == [] && s[0..] == s;
    } else {
      var rest := pat[1..];
      assert SegmentTerms(pat) + more == [CharTerm(pat[0])] + (SegmentTerms(rest) + more);
      if s != [] {
        assert forall k :: 0 <= k < |s| ==> s[..k + 1] == [s[0]] + s[1..][..k];
        forall k | 0 <= k < |s| ensures s[..k + 1][1..] == s[1..][..k] {}
      }
      if pat[0] == '*' {
        MatchesManyCons(Class(NotSlash), SegmentTerms(rest) + more, s);
        SegmentTermsMatch(rest, more, s);
        OneRound(SegmentTerms(rest) + more, s);
        if s != [] {
          SegmentTermsMatch(pat, more, s[1..]);
          if s[0] != '/' && SplitsAfter(pat, more, s[1..]) {
            SplitsStep(pat, pat, more, s);
          }
        }
        if SplitsAfter(pat, more, s) {
          StarBack(pat, more, s);
        }
        if SplitsAfter(rest, more, s) {
          StarSkips(pat, more, s);
        }
      } else {
        var cls := if pat[0] == '?' then NotSlash else Just(pat[0]);
        MatchesOneChar(cls, SegmentTerms(rest) + more, s);
        if s != [] {
          SegmentTermsMatch(rest, more, s[1..]);
          if InClass(cls, s[0]) && SplitsAfter(rest, more, s[1..]) {
            SplitsStep(pat, rest, more, s);
          }
        }
        if SplitsAfter(pat, more, s) {
          SplitsBack(pat, more, s);
        }
      }
    }
  }

  /** One round of `[^/]*` takes one character. */
  lemma OneRound(more: seq<Term>, s: string)
    ensures TakesRound(Class(NotSlash), more, s) <==>
              s != [] && s[0] != '/' && Matches([Term(Class(NotSlash), Many)] + more, s[1..])
  {
    if s != [] && s[0] != '/' && Matches([Term(Class(NotSlash), Many)] + more, s[1..]) {
      assert MatchesAtom(Class(NotSlash), s[..1]);
    }
  }

  /** `[^/]+/` takes a non-empty segment and the slash that ends it. */
  lemma SegmentRound(s: string)
    ensures MatchesAtom(ANY_SEGMENTS.atom, s) <==> |s| >= 2 && FirstSlash(s) == |s| - 1
  {
    hide Matches, MatchesTerm, MatchesAtom;
    GroupMeans(s);
    var plus := Term(Class(NotSlash), OneOrMore);
    MatchesCons(plus, [SLASH], s);
    if MatchesAtom(ANY_SEGMENTS.atom, s) {
      var k :| 0 <= k <= |s| && MatchesTerm(plus, s[..k]) && Matches([SLASH], s[k..]);
      PlusMeans(s[..k]);
      OneSlash(s[k..]);
      FirstSlashAt(s, k);
    }
    if |s| >= 2 && FirstSlash(s) == |s| - 1 {
      PlusMeans(s[..|s| - 1]);
      OneSlash(s[|s| - 1..]);
    }
  }

  lemma GroupMeans(s: string)
    ensures MatchesAtom(ANY_SEGMENTS.atom, s) <==>
              Matches([Term(Class(NotSlash), OneOrMore)] + [SLASH], s)
  {
    assert ANY_SEGMENTS.atom.terms == [Term(Class(NotSlash), OneOrMore)] + [Term(Class(Just('/')), One)];
  }

  lemma OneSlash(s: string)
    ensures Matches([SLASH], s) <==> |s| == 1 && s[0] == '/'
  {
    MatchesOneChar(Just('/'), [], s);
    assert [SLASH] + [] == [SLASH];
  }

  lemma {:induction false} ManyMeans(cls: CharClass, s: string)
    ensures MatchesMany(Class(cls), s) <==> forall i :: 0 <= i < |s| ==> InClass(cls, s[i])
    decreases |s|
  {
    if s != [] {
      ManyMeans(cls, s[1..]);
      assert forall i :: 1 <= i < |s| ==> s[i] == s[1..][i - 1];
      if forall i :: 0 <= i < |s| ==> InClass(cls, s[i]) {
        assert MatchesAtom(Class(cls), s[..1]);
      }
    }
  }

  lemma PlusMeans(s: string)
    ensures MatchesTerm(Term(Class(NotSlash), OneOrMore), s) <==> s != [] && NoSlash(s)
  {
    if s != [] {
      ManyMeans(NotSlash, s[1..]);
      assert forall i :: 1 <= i < |s| ==> s[i] == s[1..][i - 1];
      if NoSlash(s) {
        assert MatchesAtom(Class(NotSlash), s[..1]) && MatchesMany(Class(NotSlash), s[1..]);
      }
    }
  }

  /** One round of the inner `**` takes the first segment, when it is not empty and not the last. */
  lemma {:induction false} SegmentsRound(more: seq<Term>, s: string)
    ensures TakesRound(ANY_SEGMENTS.atom, more, s) <==>
              0 < FirstSlash(s) < |s| && Matches([ANY_SEGMENTS] + more, s[FirstSlash(s) + 1..])
  {
    hide MatchesAtom, Matches;
    var i := FirstSlash(s);
    forall k | 0 < k <= |s| ensures MatchesAtom(ANY_SEGMENTS.atom, s[..k]) <==> k == i + 1 && 0 < i < |s| {
      SegmentRound(s[..k]);
      if FirstSlash(s[..k]) == k - 1 && k >= 2 {
        assert s[..k][..k - 1] == s[..k - 1] && s[..k][k - 1] == s[k - 1];
        FirstSlashAt(s, k - 1);
      }
      if k == i + 1 && 0 < i < |s| {
        assert s[..k][..i] == s[..i];
        FirstSlashAt(s[..k], i);
      }
    }
  }

  lemma DotMeans(s: string)
    ensures Matches([Term(Class(Dot), Many)], s) <==> NoLineTerminator(s)
  {
    var t := Term(Class(Dot), Many);
    MatchesCons(t, [], s);
    assert [t] + [] == [t];
    ManyMeans(Dot, s);
    assert s[..|s|] == s && s[|s|..] == [];
  }

  lemma CleanCons(seg: string, segs: seq<string>)
    ensures AllClean([seg] + segs) <==> NoLineTerminator(seg) && AllClean(segs)
  {
    hide NoLineTerminator;
    var all := [seg] + segs;
    assert all[0] == seg;
    assert forall i :: 0 <= i < |segs| ==> segs[i] == all[i + 1];
  }

  lemma CleanConcat(a: string, b: string)
    ensures NoLineTerminator(a + "/" + b) <==> NoLineTerminator(a) && NoLineTerminator(b)
  {
    hide LineTerminator;
    var s := a + "/" + b;
    assert !LineTerminator('/') by { SlashIsNoTerminator(); }
    assert forall i :: 0 <= i < |a| ==> s[i] == a[i];
    assert forall i :: 0 <= i < |b| ==> b[i] == s[|a| + 1 + i];
  }

  lemma SlashIsNoTerminator()
    ensures !LineTerminator('/')
  {}

  lemma {:induction false} TerminatorsInSegments(s: string)
    ensures NoLineTerminator(s) <==> AllClean(Split(s))
    decreases |s|
  {
    hide NoLineTerminator, AllClean;
    var k := FirstSlash(s);
    CleanCons(s[..k], if k < |s| then Split(s[k + 1..]) else []);
    NothingIsClean();
    if k == |s| {
      assert s[..k] == s && [s] + [] == [s];
    } else {
      TerminatorsInSegments(s[k + 1..]);
      CleanConcat(s[..k], s[k + 1..]);
      assert s == s[..k] + "/" + s[k + 1..];
    }
  }

  lemma NothingIsClean()
    ensures AllClean([])
  {}

  /** The piece the last segment pattern takes is the whole string, a single segment. */
  lemma LastSegment(pat: string, s: string)
    ensures SplitsAfter(pat, [], s) <==> FirstSlash(s) == |s| && SegmentMatches(pat, s)
  {
    assert s[..|s|] == s && s[|s|..] == [];
    if NoSlash(s) {
      FirstSlashAt(s, |s|);
    }
    forall k | 0 <= k <= |s| && Matches([], s[k..]) ensures k == |s| {}
  }

  /** With a slash to follow, the piece is the first segment. */
  lemma InnerSegment(pat: string, more: seq<Term>, s: string)
    ensures SplitsAfter(pat, [SLASH] + more, s) <==>
              FirstSlash(s) < |s| && SegmentMatches(pat, s[..FirstSlash(s)]) && Matches(more, s[FirstSlash(s) + 1..])
  {
    hide SegmentMatches, Matches;
    var i := FirstSlash(s);
    if i < |s| && SegmentMatches(pat, s[..i]) && Matches(more, s[i + 1..]) {
      SlashAt(more, s, i);
    }
    if SplitsAfter(pat, [SLASH] + more, s) {
      var k :| 0 <= k <= |s| && NoSlash(s[..k]) && SegmentMatches(pat, s[..k]) && Matches([SLASH] + more, s[k..]);
      SlashAt(more, s, k);
    }
  }

  lemma SlashAt(more: seq<Term>, s: string, k: nat)
    requires k <= |s| && NoSlash(s[..k])
    ensures Matches([SLASH] + more, s[k..]) <==> k == FirstSlash(s) < |s| && Matches(more, s[k + 1..])
  {
    MatchesOneChar(Just('/'), more, s[k..]);
    if k < |s| {
      assert s[k..][0] == s[k] && s[k..][1..] == s[k + 1..];
      if s[k] == '/' {
        FirstSlashAt(s, k);
      }
    }
  }

  /** The compiled terms accept exactly the strings whose segments the pattern's segments accept. */
  lemma {:induction false} PatternTermsMatch(pats: seq<string>, s: string)
    requires pats != [] && forall i :: 0 <= i < |pats| ==> NoSlash(pats[i])
    ensures Matches(PatternTerms(pats), s) <==> SegmentsMatch(pats, Split(s))
    decreases |pats|, |s|
  {
    hide Matches, SegmentTerms;
    var i := FirstSlash(s);
    var pat, rest := pats[0], pats[1..];
    if pat == "**" && |pats| == 1 {
      assert PatternTerms(pats) == [Term(Class(Dot), Many)];
      DotMeans(s);
      TerminatorsInSegments(s);
    } else if pat == "**" {
      PatternTermsMatch(rest, s);
      MatchesManyCons(ANY_SEGMENTS.atom, PatternTerms(rest), s);
      SegmentsRound(PatternTerms(rest), s);
      if i < |s| {
        PatternTermsMatch(pats, s[i + 1..]);
        assert Split(s)[1..] == Split(s[i + 1..]);
      } else {
        assert Split(s)[1..] == [];
        NoSegmentsLeft(pats);
      }
    } else if |pats| == 1 {
      assert pats == [pat];
      SegmentTermsMatch(pat, [], s);
      LastSegment(pat, s);
      assert SegmentTerms(pat) + [] == SegmentTerms(pat);
      if i < |s| {
        assert |Split(s)| >= 2;
      }
    } else {
      SegmentTermsMatch(pat, [SLASH] + PatternTerms(rest), s);
      InnerSegment(pat, PatternTerms(rest), s);
      if i < |s| {
        PatternTermsMatch(rest, s[i + 1..]);
        assert Split(s)[1..] == Split(s[i + 1..]);
      } else {
        assert Split(s)[1..] == [];
        NoSegmentsLeft(rest);
      }
    }
  }

  /** A pattern needs at least one segment. */
  lemma {:induction false} NoSegmentsLeft(pats: seq<string>)
    requires pats != []
    ensures !SegmentsMatch(pats, [])
  {
    if pats[0] == "**" && |pats| > 1 {
      NoSegmentsLeft(pats[1..]);
    }
  }

  lemma TestMeans(pattern: string, s: string)
    ensures Test(GlobSource(pattern), s) <==> SegmentsMatch(Split(NormalizeRelPath(pattern)), Split(s))
  {
    CompileText(PatternTerms(Split(NormalizeRelPath(pattern))));
    PatternTermsMatch(Split(NormalizeRelPath(pattern)), s);
  }

  /**
   * For every pattern and every path, safe or not: the regular expression that globToRegExp builds accepts the path
   * exactly when the pattern matches it segment by segment.
   */
  lemma GlobMeansSegments(pattern: string, path: string)
    ensures GlobMatch(pattern, path) <==> SegmentsMatch(Split(NormalizeRelPath(pattern)), Split(NormalizeRelPath(path)))
  {
    TestMeans(pattern, NormalizeRelPath(path));
  }

  /** However a path or a pattern is spelled, with backslashes, a leading "./" or a trailing slash, it matches alike. */
  lemma SpellingIsNoMatter(pattern: string, path: string)
    ensures GlobMatch("./" + pattern, path) == GlobMatch(pattern, path) == GlobMatch(pattern, "./" + path)
    ensures GlobMatch(pattern, Slashes(path)) == GlobMatch(pattern, path) == GlobMatch(Slashes(pattern), path)
    ensures NormalizeRelPath(path) !in {"", "."} ==> GlobMatch(pattern, path + "/") == GlobMatch(pattern, path)
    ensures IsSafeRelativePath("./" + path) == IsSafeRelativePath(path)
    ensures IsSafeRelativePath(path) ==> IsSafeRelativePath(path + "/")
  {
    LeadingDotIsDropped(pattern);
    LeadingDotIsDropped(path);
    TrailingSlashIsDropped(path);
    assert Slashes(Slashes(path)) == Slashes(path) && Slashes(Slashes(pattern)) == Slashes(pattern);
    if NormalizeRelPath(path) == "." {
      assert Split(".")[0] == ".";
    }
    hide Test, Split;
  }
}
