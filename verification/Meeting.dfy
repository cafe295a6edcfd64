/**
 * Which patterns accept a common path: what patternsOverlap of glob.ts asks, decided from the patterns alone.
 */
module Meeting {
  import opened RegExp
  import opened Glob

  // ---- Rules for the segments of a path ----

  /** Any segments; those of a path in normal form that does not start with a single dot; those of a path safe to write. */
  datatype Rule = Free | Normal | Safe

  /** What has been read of a segment, as far as a rule needs to know. From `Open` on everything is allowed. */
  datatype State = Open | NoDot | Inner | First | AfterDot | AfterDots | AfterLetter | Dead

  function Starting(rule: Rule, first: bool): State {
    match rule
    case Free => Open
    case Normal => if first then NoDot else Open
    case Safe => if first then First else Inner
  }

  function Step(st: State, c: char): State {
    match st
    case Open => Open
    case NoDot => if c == '.' then AfterDots else Open
    case Inner => if c == '.' then AfterDot else Open
    case First => if c == '.' then AfterDot else if Letter(c) then AfterLetter else Open
    case AfterDot => if c == '.' then AfterDots else Open
    case AfterDots => Open
    case AfterLetter => if c == ':' then Dead else Open
    case Dead => Dead
  }

  predicate Allowed(st: State, s: string)
    decreases |s|
  {
    if s == [] then st in {Open, NoDot, AfterLetter} else Allowed(Step(st, s[0]), s[1..])
  }

  lemma {:induction false} OpenAllows(s: string)
    ensures Allowed(Open, s) && !Allowed(Dead, s)
  {
    if s != [] {
      OpenAllows(s[1..]);
    }
  }

  predicate Named(s: string) {
    s !in {"", ".", ".."}
  }

  predicate OnDrive(s: string) {
    |s| >= 2 && Letter(s[0]) && s[1] == ':'
  }

  /** What the rules say of a whole segment. */
  lemma AllowedMeans(s: string)
    ensures Allowed(NoDot, s) <==> s != "."
    ensures Allowed(Inner, s) <==> Named(s)
    ensures Allowed(First, s) <==> Named(s) && !OnDrive(s)
  {
    if s != [] {
      AllowedStep(s, 0);
      assert s == [s[0]] + s[1..];
      if |s| > 1 {
        AllowedStep(s, 1);
        assert s == [s[0], s[1]] + s[2..];
        if |s| > 2 {
          AllowedStep(s, 2);
        } else {
          assert s[2..] == "" && s == [s[0], s[1]];
        }
      }
    }
  }

  lemma AllowedStep(s: string, i: nat)
    requires i < |s|
    ensures Allowed(Open, s[i + 1..]) && !Allowed(Dead, s[i + 1..])
    ensures forall st :: Allowed(st, s[i..]) <==> Allowed(Step(st, s[i]), s[i + 1..])
  {
    OpenAllows(s[i + 1..]);
    assert s[i..][1..] == s[i + 1..];
  }

  lemma FirstIsNarrower(rule: Rule, s: string)
    ensures Allowed(Starting(rule, true), s) ==> Allowed(Starting(rule, false), s)
  {
    OpenAllows(s);
    AllowedMeans(s);
  }

  // ---- One segment ----

  function Any(c: char): char {
    if c == '?' then '_' else c
  }

  /**
   * Of two heads a star is skipped, or takes the next character of the other pattern; two stars may take anything first;
   * otherwise the two characters must agree.
   */
  predicate SegmentsMeet(p: string, q: string, st: State)
    decreases |p| + |q|
  {
    if st.Dead? then false
    else if p == [] && q == [] then Allowed(st, "")
    else if p != [] && p[0] == '*' && q != [] && q[0] == '*' then SegmentsMeet(p[1..], q, Open) || SegmentsMeet(p, q[1..], Open)
    else if p != [] && p[0] == '*' then
      SegmentsMeet(p[1..], q, st) || (q != [] && SegmentsMeet(p, q[1..], Step(st, Any(q[0]))))
    else if q != [] && q[0] == '*' then
      SegmentsMeet(p, q[1..], st) || (p != [] && SegmentsMeet(p[1..], q, Step(st, Any(p[0]))))
    else
      && p != [] && q != [] && (p[0] == q[0] || p[0] == '?' || q[0] == '?')
      && SegmentsMeet(p[1..], q[1..], Step(st, if p[0] == '?' then Any(q[0]) else p[0]))
  }

  lemma {:induction false} OpenIsWider(p: string, q: string, st: State)
    requires SegmentsMeet(p, q, st)
    ensures SegmentsMeet(p, q, Open)
    decreases |p| + |q|
  {
    if p == [] && q == [] {
    } else if p != [] && p[0] == '*' && q != [] && q[0] == '*' {
    } else if p != [] && p[0] == '*' {
      if SegmentsMeet(p[1..], q, st) {
        OpenIsWider(p[1..], q, st);
      } else {
        OpenIsWider(p, q[1..], Step(st, Any(q[0])));
      }
    } else if q != [] && q[0] == '*' {
      if SegmentsMeet(p, q[1..], st) {
        OpenIsWider(p, q[1..], st);
      } else {
        OpenIsWider(p[1..], q, Step(st, Any(p[0])));
      }
    } else {
      OpenIsWider(p[1..], q[1..], Step(st, if p[0] == '?' then Any(q[0]) else p[0]));
    }
  }

  /** Two segment patterns that accept a common allowed text meet. */
  lemma {:induction false} CommonTextMeets(p: string, q: string, s: string, st: State)
    requires SegmentMatches(p, s) && SegmentMatches(q, s) && Allowed(st, s)
    ensures SegmentsMeet(p, q, st)
    decreases |p| + |q| + |s|
  {
    OpenAllows(s);
    if p != [] && p[0] == '*' && SegmentMatches(p[1..], s) {
      CommonTextMeets(p[1..], q, s, st);
      OpenIsWider(p[1..], q, st);
    } else if q != [] && q[0] == '*' && SegmentMatches(q[1..], s) {
      CommonTextMeets(p, q[1..], s, st);
      OpenIsWider(p, q[1..], st);
    } else if s != [] {
      var next := Step(st, s[0]);
      var pt := if p[0] == '*' then p else p[1..];
      var qt := if q[0] == '*' then q else q[1..];
      CommonTextMeets(pt, qt, s[1..], next);
      OpenIsWider(pt, qt, next);
    }
  }

  /** No slash of either kind. */
  predicate Tame(s: string) {
    forall i :: 0 <= i < |s| ==> s[i] !in {'/', '\\'}
  }

  /** A text that is as tame and as clean as the two patterns it comes from. */
  predicate Decent(p: string, q: string, s: string) {
    (Tame(p) && Tame(q) ==> Tame(s)) && (NoLineTerminator(p) && NoLineTerminator(q) ==> NoLineTerminator(s))
  }

  lemma DecentCons(p: string, q: string, c: char, s: string)
    requires Decent(p, q, s) && (c == '_' || c in p || c in q)
    ensures Decent(p, q, [c] + s)
  {}

  lemma DecentTail(p: string, q: string, s: string)
    ensures p != [] && Decent(p[1..], q, s) ==> Decent(p, q, s)
    ensures q != [] && Decent(p, q[1..], s) ==> Decent(p, q, s)
    ensures p != [] && q != [] && Decent(p[1..], q[1..], s) ==> Decent(p, q, s)
  {}

  lemma NothingIsDecent(p: string, q: string)
    ensures Decent(p, q, "")
  {}

  /** Two that meet accept a common allowed text, which is empty only if one of them is. */
  lemma {:induction false} MeetingText(p: string, q: string, st: State) returns (s: string)
    requires SegmentsMeet(p, q, st)
    ensures SegmentMatches(p, s) && SegmentMatches(q, s) && Allowed(st, s) && Decent(p, q, s)
    ensures p != "" && q != "" ==> s != ""
    decreases |p| + |q|
  {
    hide Decent;
    if p == [] && q == [] {
      s := "";
      NothingIsDecent(p, q);
    } else if p != [] && p[0] == '*' && q != [] && q[0] == '*' {
      var rest;
      if SegmentsMeet(p[1..], q, Open) {
        rest := MeetingText(p[1..], q, Open);
      } else {
        rest := MeetingText(p, q[1..], Open);
      }
      DecentTail(p, q, rest);
      DecentCons(p, q, '_', rest);
      s := "_" + rest;
    } else if p != [] && p[0] == '*' {
      if SegmentsMeet(p[1..], q, st) {
        s := MeetingText(p[1..], q, st);
        StarNeedsMore(q, s);
        DecentTail(p, q, s);
      } else {
        var c := Any(q[0]);
        var rest := MeetingText(p, q[1..], Step(st, c));
        DecentTail(p, q, rest);
        DecentCons(p, q, c, rest);
        s := [c] + rest;
      }
    } else if q != [] && q[0] == '*' {
      if SegmentsMeet(p, q[1..], st) {
        s := MeetingText(p, q[1..], st);
        StarNeedsMore(p, s);
        DecentTail(p, q, s);
      } else {
        var c := Any(p[0]);
        var rest := MeetingText(p[1..], q, Step(st, c));
        DecentTail(p, q, rest);
        DecentCons(p, q, c, rest);
        s := [c] + rest;
      }
    } else {
      var c := if p[0] == '?' then Any(q[0]) else p[0];
      var rest := MeetingText(p[1..], q[1..], Step(st, c));
      DecentTail(p, q, rest);
      DecentCons(p, q, c, rest);
      s := [c] + rest;
    }
  }

  lemma StarNeedsMore(p: string, s: string)
    requires SegmentMatches(p, s)
    ensures p != "" && p[0] != '*' ==> s != ""
  {}

  lemma {:induction false} StarMatches(s: string)
    ensures SegmentMatches("*", s)
  {
    assert "*"[1..] == "";
    if s != [] {
      StarMatches(s[1..]);
    }
  }

  lemma {:induction false} StarMeets(q: string)
    ensures SegmentsMeet("*", q, Open) && SegmentsMeet(q, "*", Open)
  {
    assert "*"[1..] == "";
    if q != [] {
      StarMeets(q[1..]);
    }
  }

  lemma FirstMeetsInner(p: string, q: string, rule: Rule)
    requires SegmentsMeet(p, q, Starting(rule, true))
    ensures SegmentsMeet(p, q, Starting(rule, false))
  {
    var s := MeetingText(p, q, Starting(rule, true));
    FirstIsNarrower(rule, s);
    CommonTextMeets(p, q, s, Starting(rule, false));
  }

  lemma {:induction false} LiteralsShow(p: string, s: string, c: char)
    requires SegmentMatches(p, s) && c in p && c !in {'*', '?'}
    ensures c in s
    decreases |p| + |s|
  {
    if p[0] == '*' && !SegmentMatches(p[1..], s) {
      LiteralsShow(p, s[1..], c);
    } else if p[0] != c {
      LiteralsShow(p[1..], if p[0] == '*' then s else s[1..], c);
    }
  }

  // ---- Whole patterns ----

  predicate AllAllowed(segs: seq<string>, rule: Rule, first: bool) {
    forall i :: 0 <= i < |segs| ==> Allowed(Starting(rule, first && i == 0), segs[i])
  }

  /** Each segment pattern accepts some allowed segment; before what follows a `**` there can be another. */
  predicate Usable(ps: seq<string>, rule: Rule, first: bool) {
    if ps == [] then true
    else if ps[0] == "**" then Usable(ps[1..], rule, false)
    else SegmentsMeet("*", ps[0], Starting(rule, first)) && Usable(ps[1..], rule, false)
  }

  /**
   * A final `**` takes whatever the other side can be, cleanly. An inner one is skipped, or takes a non-empty segment of
   * the other side; two inner ones may take anything first. Otherwise the two first segments must meet.
   */
  predicate PatternsMeet(ps: seq<string>, qs: seq<string>, rule: Rule, first: bool)
    decreases |ps| + |qs|
  {
    if ps == [] || qs == [] then ps == qs
    else if ps == ["**"] then AllClean(qs) && Usable(qs, rule, first)
    else if qs == ["**"] then AllClean(ps) && Usable(ps, rule, first)
    else if ps[0] == "**" && qs[0] == "**" then PatternsMeet(ps[1..], qs, rule, false) || PatternsMeet(ps, qs[1..], rule, false)
    else if ps[0] == "**" then
      || PatternsMeet(ps[1..], qs, rule, first)
      || (qs[0] != "" && SegmentsMeet("*", qs[0], Starting(rule, first)) && PatternsMeet(ps, qs[1..], rule, false))
    else if qs[0] == "**" then
      || PatternsMeet(ps, qs[1..], rule, first)
      || (ps[0] != "" && SegmentsMeet(ps[0], "*", Starting(rule, first)) && PatternsMeet(ps[1..], qs, rule, false))
    else SegmentsMeet(ps[0], qs[0], Starting(rule, first)) && PatternsMeet(ps[1..], qs[1..], rule, false)
  }

  lemma {:induction false} CleanSegment(p: string, s: string)
    requires SegmentMatches(p, s) && NoLineTerminator(s)
    ensures NoLineTerminator(p)
  {
    forall i | 0 <= i < |p| ensures !LineTerminator(p[i]) {
      if p[i] !in {'*', '?'} {
        LiteralsShow(p, s, p[i]);
      }
    }
  }

  lemma {:induction false} CleanPattern(ps: seq<string>, segs: seq<string>)
    requires SegmentsMatch(ps, segs) && AllClean(segs)
    ensures AllClean(ps)
    decreases |ps| + |segs|
  {
    if ps != [] && ps != ["**"] {
      assert ps == [ps[0]] + ps[1..];
      CleanCons(ps[0], ps[1..]);
      if segs != [] {
        assert segs == [segs[0]] + segs[1..];
        CleanCons(segs[0], segs[1..]);
      }
      if ps[0] == "**" && SegmentsMatch(ps[1..], segs) {
        CleanPattern(ps[1..], segs);
      } else if ps[0] == "**" {
        CleanPattern(ps, segs[1..]);
      } else {
        CleanSegment(ps[0], segs[0]);
        CleanPattern(ps[1..], segs[1..]);
      }
    }
  }

  lemma AllowedTail(segs: seq<string>, rule: Rule, first: bool)
    requires segs != [] && AllAllowed(segs, rule, first)
    ensures Allowed(Starting(rule, first), segs[0]) && AllAllowed(segs[1..], rule, false)
  {
    hide Allowed;
    assert forall i :: 0 <= i < |segs| - 1 ==> segs[1..][i] == segs[i + 1];
  }

  lemma AllowedInside(segs: seq<string>, rule: Rule, first: bool)
    requires AllAllowed(segs, rule, first)
    ensures AllAllowed(segs, rule, false)
  {
    hide Allowed;
    if segs != [] {
      FirstIsNarrower(rule, segs[0]);
    }
  }

  lemma {:induction false} UsableInside(ps: seq<string>, rule: Rule)
    requires Usable(ps, rule, true)
    ensures Usable(ps, rule, false)
  {
    if ps != [] && ps[0] != "**" {
      FirstMeetsInner("*", ps[0], rule);
    }
  }

  lemma {:induction false} UsedIsUsable(ps: seq<string>, segs: seq<string>, rule: Rule, first: bool)
    requires SegmentsMatch(ps, segs) && AllAllowed(segs, rule, first)
    ensures Usable(ps, rule, first)
    decreases |ps| + |segs|
  {
    hide SegmentsMeet, SegmentMatches, Allowed, AllAllowed;
    if ps != [] && ps != ["**"] {
      if ps[0] == "**" && SegmentsMatch(ps[1..], segs) {
        UsedIsUsable(ps[1..], segs, rule, first);
        if first {
          UsableInside(ps[1..], rule);
        }
      } else {
        AllowedTail(segs, rule, first);
        if ps[0] == "**" {
          UsedIsUsable(ps, segs[1..], rule, false);
        } else {
          StarMatches(segs[0]);
          CommonTextMeets("*", ps[0], segs[0], Starting(rule, first));
          UsedIsUsable(ps[1..], segs[1..], rule, false);
        }
      }
    }
  }

  lemma NotEmpty(p: string, s: string)
    requires SegmentMatches(p, s)
    ensures p == "" ==> s == ""
  {}

  /** Two patterns that accept common allowed segments meet. */
  lemma {:induction false} CommonSegmentsMeet(ps: seq<string>, qs: seq<string>, segs: seq<string>, rule: Rule, first: bool)
    requires SegmentsMatch(ps, segs) && SegmentsMatch(qs, segs) && AllAllowed(segs, rule, first)
    ensures PatternsMeet(ps, qs, rule, first)
    decreases |ps| + |qs| + |segs|
  {
    hide SegmentMatches, SegmentsMeet, AllClean, Allowed, AllAllowed, Usable;
    if ps == [] || qs == [] {
      assert segs == [];
      if ps != [] { NoSegmentsLeft(ps); }
      if qs != [] { NoSegmentsLeft(qs); }
    } else if ps == ["**"] {
      CleanPattern(qs, segs);
      UsedIsUsable(qs, segs, rule, first);
    } else if qs == ["**"] {
      CleanPattern(ps, segs);
      UsedIsUsable(ps, segs, rule, first);
    } else if ps[0] == "**" && SegmentsMatch(ps[1..], segs) {
      AllowedInside(segs, rule, first);
      CommonSegmentsMeet(ps[1..], qs, segs, rule, first && qs[0] != "**");
    } else if qs[0] == "**" && SegmentsMatch(qs[1..], segs) {
      AllowedInside(segs, rule, first);
      CommonSegmentsMeet(ps, qs[1..], segs, rule, first && ps[0] != "**");
    } else {
      var s := segs[0];
      AllowedTail(segs, rule, first);
      CommonSegmentsMeet(Advanced(ps), Advanced(qs), segs[1..], rule, false);
      if ps[0] != "**" { NotEmpty(ps[0], s); }
      if qs[0] != "**" { NotEmpty(qs[0], s); }
      StarMatches(s);
      if ps[0] != "**" || qs[0] != "**" {
        CommonTextMeets(if ps[0] == "**" then "*" else ps[0], if qs[0] == "**" then "*" else qs[0], s, Starting(rule, first));
      }
    }
  }

  function Last(segs: seq<string>): string {
    if segs == [] then "" else segs[|segs| - 1]
  }

  predicate AllTame(segs: seq<string>) {
    forall i :: 0 <= i < |segs| ==> Tame(segs[i])
  }

  /** Segments that are as tame as the patterns they come from, and whose last one is empty only if it must be. */
  predicate Fine(ps: seq<string>, qs: seq<string>, segs: seq<string>) {
    (AllTame(ps) && AllTame(qs) ==> AllTame(segs)) && (Last(ps) != "" && Last(qs) != "" ==> Last(segs) != "")
  }

  lemma FineTail(ps: seq<string>, qs: seq<string>, segs: seq<string>)
    ensures |ps| > 1 && Fine(ps[1..], qs, segs) ==> Fine(ps, qs, segs)
    ensures |qs| > 1 && Fine(ps, qs[1..], segs) ==> Fine(ps, qs, segs)
  {
    hide Tame;
    assert forall i :: 1 <= i < |ps| ==> ps[1..][i - 1] == ps[i];
    assert forall i :: 1 <= i < |qs| ==> qs[1..][i - 1] == qs[i];
  }

  lemma FineHalf(ps: seq<string>, qs: seq<string>, segs: seq<string>)
    ensures Fine(ps, ps, segs) || Fine(qs, qs, segs) ==> Fine(ps, qs, segs)
  {
    hide Tame;
  }

  /** What is left of a pattern after one segment: an inner `**` stays. */
  function Advanced(ps: seq<string>): seq<string>
    requires ps != []
  {
    if ps[0] == "**" && |ps| > 1 then ps else ps[1..]
  }

  predicate Takes(ps: seq<string>, s: string)
    requires ps != []
  {
    if ps[0] == "**" then |ps| > 1 && s != "" else SegmentMatches(ps[0], s)
  }

  lemma TakesOneMore(ps: seq<string>, s: string, rest: seq<string>)
    requires ps != [] && Takes(ps, s) && SegmentsMatch(Advanced(ps), rest)
    ensures SegmentsMatch(ps, [s] + rest)
  {
    assert ([s] + rest)[1..] == rest;
  }

  lemma FineOneMore(ps: seq<string>, qs: seq<string>, s: string, rest: seq<string>)
    requires ps != [] && qs != [] && Fine(Advanced(ps), Advanced(qs), rest)
    requires (Advanced(ps) == [] <==> rest == []) && (Advanced(qs) == [] <==> rest == [])
    requires (Tame(ps[0]) && Tame(qs[0]) ==> Tame(s)) && (ps[0] != "" && qs[0] != "" ==> s != "")
    ensures Fine(ps, qs, [s] + rest)
  {
    hide Tame;
    assert forall i :: 1 <= i < |ps| ==> ps[1..][i - 1] == ps[i];
    assert forall i :: 1 <= i < |qs| ==> qs[1..][i - 1] == qs[i];
  }

  /** One more segment in front, which both patterns take. */
  lemma OneMore(ps: seq<string>, qs: seq<string>, s: string, rest: seq<string>)
    requires ps != [] && qs != [] && Takes(ps, s) && Takes(qs, s)
    requires SegmentsMatch(Advanced(ps), rest) && SegmentsMatch(Advanced(qs), rest) && Fine(Advanced(ps), Advanced(qs), rest)
    requires (Tame(ps[0]) && Tame(qs[0]) ==> Tame(s)) && (ps[0] != "" && qs[0] != "" ==> s != "")
    ensures SegmentsMatch(ps, [s] + rest) && SegmentsMatch(qs, [s] + rest) && Fine(ps, qs, [s] + rest)
  {
    hide Tame, Fine, SegmentMatches;
    TakesOneMore(ps, s, rest);
    TakesOneMore(qs, s, rest);
    if rest == [] {
      if Advanced(ps) != [] { NoSegmentsLeft(Advanced(ps)); }
      if Advanced(qs) != [] { NoSegmentsLeft(Advanced(qs)); }
    }
    FineOneMore(ps, qs, s, rest);
  }

  lemma SegmentsMatchSkip(ps: seq<string>, segs: seq<string>)
    requires |ps| > 1 && ps[0] == "**" && SegmentsMatch(ps[1..], segs)
    ensures SegmentsMatch(ps, segs)
  {}

  lemma FinalTakes(segs: seq<string>)
    ensures SegmentsMatch(["**"], segs) <==> segs != [] && AllClean(segs)
  {}

  lemma AllowedCons(s: string, rest: seq<string>, rule: Rule, first: bool)
    requires Allowed(Starting(rule, first), s) && AllAllowed(rest, rule, false)
    ensures AllAllowed([s] + rest, rule, first)
  {
    hide Allowed;
  }

  /** A segment every rule allows. */
  lemma OneUnderscore(rule: Rule, first: bool)
    ensures Tame("_") && NoLineTerminator("_") && Allowed(Starting(rule, first), "_") && AllClean(["_"])
  {
    assert "_"[1..] == "";
  }

  lemma NothingLeft(rule: Rule, first: bool)
    ensures SegmentsMatch([], []) && AllClean([]) && Fine([], [], []) && AllAllowed([], rule, first)
  {}

  lemma StarIsDecent(q: string, s: string)
    ensures Decent("*", q, s) ==> (Tame(q) ==> Tame(s)) && (NoLineTerminator(q) ==> NoLineTerminator(s))
  {}

  lemma JustFinal(rule: Rule, first: bool)
    ensures SegmentsMatch(["**"], ["_"]) && AllClean(["_"]) && Fine(["**"], ["**"], ["_"]) && AllAllowed(["_"], rule, first)
  {
    OneUnderscore(rule, first);
  }

  /** A usable pattern without line terminators accepts something allowed without them. */
  lemma {:induction false} Sample(ps: seq<string>, rule: Rule, first: bool) returns (segs: seq<string>)
    requires AllClean(ps) && Usable(ps, rule, first)
    ensures SegmentsMatch(ps, segs) && AllClean(segs) && AllAllowed(segs, rule, first) && Fine(ps, ps, segs)
    ensures ps != [] ==> segs != []
  {
    hide SegmentsMatch, SegmentsMeet, SegmentMatches, Fine, AllClean, Tame, Allowed, AllAllowed, NoLineTerminator;
    if ps == [] {
      segs := [];
      NothingLeft(rule, first);
    } else if ps == ["**"] {
      segs := ["_"];
      JustFinal(rule, first);
    } else {
      assert ps == [ps[0]] + ps[1..];
      CleanCons(ps[0], ps[1..]);
      var rest := Sample(ps[1..], rule, false);
      var s := "_";
      OneUnderscore(rule, first);
      if ps[0] == "**" {
        SegmentsMatchSkip(ps, rest);
        FineTail(ps, ps[1..], rest);
        FineTail(ps, ps, rest);
      } else {
        s := MeetingText("*", ps[0], Starting(rule, first));
        StarIsDecent(ps[0], s);
      }
      segs := [s] + rest;
      CleanCons(s, rest);
      AllowedCons(s, rest, rule, first);
      OneMore(ps, ps, s, rest);
    }
  }

  /** A first segment for two patterns that do not both start with `**`. */
  lemma FirstSegment(ps: seq<string>, qs: seq<string>, st: State) returns (s: string)
    requires ps != [] && qs != [] && !(ps[0] == "**" && qs[0] == "**")
    requires ps[0] == "**" ==> |ps| > 1 && qs[0] != "" && SegmentsMeet("*", qs[0], st)
    requires qs[0] == "**" ==> |qs| > 1 && ps[0] != "" && SegmentsMeet(ps[0], "*", st)
    requires ps[0] != "**" && qs[0] != "**" ==> SegmentsMeet(ps[0], qs[0], st)
    ensures Takes(ps, s) && Takes(qs, s) && (Tame(ps[0]) && Tame(qs[0]) ==> Tame(s)) && Allowed(st, s)
    ensures ps[0] != "" && qs[0] != "" ==> s != ""
  {
    var p := if ps[0] == "**" then "*" else ps[0];
    var q := if qs[0] == "**" then "*" else qs[0];
    hide SegmentsMeet, SegmentMatches, Tame, NoLineTerminator, Allowed;
    s := MeetingText(p, q, st);
    StarsAreTame();
  }

  lemma StarsAreTame()
    ensures Tame("*") && Tame("**")
  {}

  /** Two patterns that meet accept common allowed segments. */
  lemma {:induction false} MeetingSegments(ps: seq<string>, qs: seq<string>, rule: Rule, first: bool) returns (segs: seq<string>)
    requires PatternsMeet(ps, qs, rule, first)
    ensures SegmentsMatch(ps, segs) && SegmentsMatch(qs, segs) && AllAllowed(segs, rule, first) && Fine(ps, qs, segs)
    decreases |ps| + |qs|
  {
    hide SegmentsMatch, SegmentsMeet, SegmentMatches, Fine, AllClean, Tame, Allowed, AllAllowed, NoLineTerminator, Usable;
    if ps == [] || qs == [] {
      segs := [];
      NothingLeft(rule, first);
    } else if ps == ["**"] {
      segs := Sample(qs, rule, first);
      FinalTakes(segs);
      FineHalf(ps, qs, segs);
    } else if qs == ["**"] {
      segs := Sample(ps, rule, first);
      FinalTakes(segs);
      FineHalf(ps, qs, segs);
    } else if ps[0] == "**" && qs[0] == "**" {
      var rest;
      if PatternsMeet(ps[1..], qs, rule, false) {
        rest := MeetingSegments(ps[1..], qs, rule, false);
        SegmentsMatchSkip(ps, rest);
      } else {
        rest := MeetingSegments(ps, qs[1..], rule, false);
        SegmentsMatchSkip(qs, rest);
      }
      FineTail(ps, qs, rest);
      OneUnderscore(rule, first);
      OneMore(ps, qs, "_", rest);
      AllowedCons("_", rest, rule, first);
      segs := ["_"] + rest;
    } else if ps[0] == "**" && PatternsMeet(ps[1..], qs, rule, first) {
      segs := MeetingSegments(ps[1..], qs, rule, first);
      FineTail(ps, qs, segs);
      SegmentsMatchSkip(ps, segs);
    } else if qs[0] == "**" && PatternsMeet(ps, qs[1..], rule, first) {
      segs := MeetingSegments(ps, qs[1..], rule, first);
      FineTail(ps, qs, segs);
      SegmentsMatchSkip(qs, segs);
    } else {
      var s := FirstSegment(ps, qs, Starting(rule, first));
      var rest := MeetingSegments(Advanced(ps), Advanced(qs), rule, false);
      OneMore(ps, qs, s, rest);
      AllowedCons(s, rest, rule, first);
      segs := [s] + rest;
    }
  }

  // ---- Paths in normal form ----

  predicate NoBackslash(s: string) {
    forall i :: 0 <= i < |s| ==> s[i] != '\\'
  }

  /** The texts that normalizeRelPath leaves alone. */
  predicate IsNormal(s: string) {
    NoBackslash(s) && !LeadingDot(s) && !TrailingSlash(s)
  }

  lemma {:induction false} DropLeadingKeeps(p: string)
    requires NoBackslash(p)
    ensures NoBackslash(DropLeading(p))
    decreases |p|
  {
    if LeadingDot(p) {
      DropLeadingKeeps(p[2..]);
    }
  }

  lemma {:induction false} DropTrailingKeeps(p: string)
    requires NoBackslash(p) && !LeadingDot(p)
    ensures IsNormal(DropTrailing(p))
    decreases |p|
  {
    if TrailingSlash(p) {
      DropTrailingKeeps(p[..|p| - 1]);
    }
  }

  lemma NormalForm(p: string)
    ensures IsNormal(NormalizeRelPath(p)) && (IsNormal(p) ==> NormalizeRelPath(p) == p)
  {
    DropLeadingKeeps(Slashes(p));
    DropTrailingKeeps(DropLeading(Slashes(p)));
    if IsNormal(p) {
      assert Slashes(p) == p;
    }
  }

  lemma {:induction false} SplitLast(s: string)
    ensures |Split(s)| > 1 && Last(Split(s)) == "" <==> s != "" && s[|s| - 1] == '/'
    decreases |s|
  {
    var i := FirstSlash(s);
    if i < |s| {
      var rest := s[i + 1..];
      SplitLast(rest);
      assert Split(s)[1..] == Split(rest);
      if |Split(rest)| == 1 {
        JoinSplit(rest);
      }
    }
  }

  lemma SplitFirst(s: string)
    ensures |Split(s)| > 1 && Split(s)[0] == "." <==> LeadingDot(s)
  {
    if LeadingDot(s) {
      FirstSlashAt(s, 1);
    }
  }

  lemma {:induction false} SplitTame(s: string)
    ensures AllTame(Split(s)) <==> NoBackslash(s)
    decreases |s|
  {
    var i := FirstSlash(s);
    var first := s[..i];
    TameBackslash(first);
    if i < |s| {
      var rest := s[i + 1..];
      SplitTame(rest);
      hide Tame, NoBackslash;
      TameCons(first, Split(rest));
      BackslashConcat(first, rest);
      assert s == first + "/" + rest;
    } else {
      hide Tame, NoBackslash;
      assert first == s && AllTame([first]) == Tame([first][0]);
    }
  }

  lemma TameBackslash(s: string)
    requires NoSlash(s)
    ensures Tame(s) <==> NoBackslash(s)
  {}

  lemma TameCons(s: string, segs: seq<string>)
    ensures AllTame([s] + segs) <==> Tame(s) && AllTame(segs)
  {
    hide Tame;
    var all := [s] + segs;
    assert all[0] == s;
    assert forall i :: 0 <= i < |segs| ==> segs[i] == all[i + 1];
  }

  lemma BackslashConcat(a: string, b: string)
    ensures NoBackslash(a + "/" + b) <==> NoBackslash(a) && NoBackslash(b)
  {
    var s := a + "/" + b;
    assert forall i :: 0 <= i < |a| ==> s[i] == a[i];
    assert forall i :: 0 <= i < |b| ==> b[i] == s[|a| + 1 + i];
  }

  /** Segments that do not start with a single dot and a slash. */
  predicate Undotted(segs: seq<string>) {
    |segs| > 1 ==> segs[0] != "."
  }

  /** The segments of a text in normal form. */
  predicate NormalSegments(segs: seq<string>) {
    AllTame(segs) && Undotted(segs) && (|segs| > 1 && Last(segs) == "" ==> segs == ["", ""])
  }

  lemma NormalSplit(s: string)
    ensures IsNormal(s) <==> NormalSegments(Split(s))
  {
    SplitLast(s);
    SplitFirst(s);
    SplitTame(s);
    JoinSplit(s);
    if Split(s) == ["", ""] {
      assert Join(["", ""]) == "/";
    }
    if |s| == 1 && s[0] == '/' {
      FirstSlashAt(s, 0);
      assert s[..0] == "" && s[1..] == "" && Split("") == [""];
    }
  }

  lemma NormalAt(p: string)
    ensures NormalSegments(Split(NormalizeRelPath(p))) && Undotted(Split(NormalizeRelPath(p)))
  {
    NormalForm(p);
    NormalSplit(NormalizeRelPath(p));
  }

  function SegmentsOf(pattern: string): seq<string> {
    Split(NormalizeRelPath(pattern))
  }

  lemma OnlyItself(ps: seq<string>, segs: seq<string>)
    requires NormalSegments(ps) && ps != [] && Last(ps) == "" && SegmentsMatch(ps, segs)
    ensures segs == ps
  {
    if |ps| == 1 {
      assert ps == [""];
    } else {
      assert ps[1..] == [""];
    }
  }

  lemma MeetingIsNormal(ps: seq<string>, qs: seq<string>, segs: seq<string>)
    requires NormalSegments(ps) && NormalSegments(qs) && ps != [] && qs != []
    requires SegmentsMatch(ps, segs) && SegmentsMatch(qs, segs) && Fine(ps, qs, segs) && Undotted(segs)
    ensures NormalSegments(segs) && segs != []
  {
    NoSegmentsLeft(ps);
    if Last(ps) == "" {
      OnlyItself(ps, segs);
    } else if Last(qs) == "" {
      OnlyItself(qs, segs);
    }
  }

  lemma SlashFree(segs: seq<string>)
    requires AllTame(segs)
    ensures forall i :: 0 <= i < |segs| ==> NoSlash(segs[i])
  {}

  /** Normal segments that both patterns accept are those of a path that both match. */
  lemma CommonPath(a: string, b: string, segs: seq<string>) returns (path: string)
    requires NormalSegments(segs) && segs != [] && SegmentsMatch(SegmentsOf(a), segs) && SegmentsMatch(SegmentsOf(b), segs)
    ensures GlobMatch(a, path) && GlobMatch(b, path) && NormalizeRelPath(path) == path && Split(path) == segs
  {
    path := Join(segs);
    SlashFree(segs);
    SplitJoin(segs);
    NormalSplit(path);
    NormalForm(path);
    GlobMeansSegments(a, path);
    GlobMeansSegments(b, path);
  }

  lemma NormallyAllowed(segs: seq<string>)
    requires segs != []
    ensures AllAllowed(segs, Normal, true) <==> segs[0] != "."
    ensures AllAllowed(segs, Free, true)
  {
    AllowedMeans(segs[0]);
    forall i | 0 <= i < |segs| ensures Allowed(Open, segs[i]) {
      OpenAllows(segs[i]);
    }
  }

  // ---- Whether two patterns share a string, a path, a path that may be written ----

  /** The regular expressions of two patterns accept a common string if and only if the patterns meet. */
  lemma TestsMeet(a: string, b: string)
    ensures (exists s :: Test(GlobSource(a), s) && Test(GlobSource(b), s)) <==> PatternsMeet(SegmentsOf(a), SegmentsOf(b), Free, true)
  {
    var ps, qs := SegmentsOf(a), SegmentsOf(b);
    NormalAt(a);
    NormalAt(b);
    hide PatternsMeet, SegmentsMatch, NormalizeRelPath, Split, GlobSource, Test, Join, SegmentMatches, Tame, AllAllowed, Undotted;
    if s :| Test(GlobSource(a), s) && Test(GlobSource(b), s) {
      TestMeans(a, s);
      TestMeans(b, s);
      NormallyAllowed(Split(s));
      CommonSegmentsMeet(ps, qs, Split(s), Free, true);
    }
    if PatternsMeet(ps, qs, Free, true) {
      var segs := MeetingSegments(ps, qs, Free, true);
      NoSegmentsLeft(ps);
      SlashFree(segs);
      SplitJoin(segs);
      TestMeans(a, Join(segs));
      TestMeans(b, Join(segs));
    }
  }

  /** A path in normal form is a single dot, or does not start with one as a segment. */
  predicate Meets(a: string, b: string) {
    || PatternsMeet(SegmentsOf(a), SegmentsOf(b), Normal, true)
    || (SegmentsMatch(SegmentsOf(a), ["."]) && SegmentsMatch(SegmentsOf(b), ["."]))
  }

  /**
   * For all patterns, wildcards anywhere: some path is accepted by both if and only if the patterns meet, which takes
   * their segments alone to decide.
   */
  lemma PathsMeet(a: string, b: string)
    ensures (exists path :: GlobMatch(a, path) && GlobMatch(b, path)) <==> Meets(a, b)
  {
    var ps, qs := SegmentsOf(a), SegmentsOf(b);
    NormalAt(a);
    NormalAt(b);
    hide GlobMatch, PatternsMeet, SegmentsMatch, NormalizeRelPath, Split, NormalSegments, Fine, AllAllowed;
    if path :| GlobMatch(a, path) && GlobMatch(b, path) {
      var segs := SegmentsOf(path);
      GlobMeansSegments(a, path);
      GlobMeansSegments(b, path);
      NormalAt(path);
      NormallyAllowed(segs);
      if segs[0] == "." {
        assert segs == ["."];
      } else {
        CommonSegmentsMeet(ps, qs, segs, Normal, true);
      }
    }
    if PatternsMeet(ps, qs, Normal, true) {
      var segs := MeetingSegments(ps, qs, Normal, true);
      if segs != [] { NormallyAllowed(segs); }
      MeetingIsNormal(ps, qs, segs);
      var path := CommonPath(a, b, segs);
    } else if Meets(a, b) {
      OneDot();
      var path := CommonPath(a, b, ["."]);
    }
  }

  lemma OneDot()
    ensures NormalSegments(["."])
  {}

  predicate MeetSafely(a: string, b: string) {
    PatternsMeet(SegmentsOf(a), SegmentsOf(b), Safe, true)
  }

  lemma SafelyAllowed(segs: seq<string>)
    requires segs != []
    ensures AllAllowed(segs, Safe, true) <==> (forall i :: 0 <= i < |segs| ==> Named(segs[i])) && !OnDrive(segs[0])
  {
    hide Allowed, Named, OnDrive;
    forall i | 0 <= i < |segs| ensures
        (Allowed(Inner, segs[i]) <==> Named(segs[i])) && (Allowed(First, segs[i]) <==> Named(segs[i]) && !OnDrive(segs[i]))
    {
      AllowedMeans(segs[i]);
    }
  }

  /** The lexical safety test of a path in normal form, by its segments. */
  lemma SafeMeans(path: string)
    requires NormalizeRelPath(path) == path
    ensures IsSafeRelativePath(path) <==> AllAllowed(Split(path), Safe, true)
  {
    var segs := Split(path);
    SafelyAllowed(segs);
    hide NormalizeRelPath, AllAllowed;
    FirstOfPath(path);
    if path == "" || path[0] == '/' {
      assert segs[0] == "";
    }
  }

  lemma FirstOfPath(path: string)
    ensures path == "" || path[0] == '/' <==> Split(path)[0] == ""
    ensures OnDrive(path) <==> OnDrive(Split(path)[0])
  {
    var i := FirstSlash(path);
    assert Split(path)[0] == path[..i];
  }

  /** The same for paths that may be written: some safe path is accepted by both if and only if the patterns meet safely. */
  lemma SafePathsMeet(a: string, b: string)
    ensures (exists path :: IsSafeRelativePath(path) && NormalizeRelPath(path) == path && GlobMatch(a, path) && GlobMatch(b, path))
            <==> MeetSafely(a, b)
  {
    var ps, qs := SegmentsOf(a), SegmentsOf(b);
    NormalAt(a);
    NormalAt(b);
    hide GlobMatch, PatternsMeet, SegmentsMatch, NormalizeRelPath, Split, NormalSegments, Fine, AllAllowed, IsSafeRelativePath;
    if path :| IsSafeRelativePath(path) && NormalizeRelPath(path) == path && GlobMatch(a, path) && GlobMatch(b, path) {
      GlobMeansSegments(a, path);
      GlobMeansSegments(b, path);
      SafeMeans(path);
      CommonSegmentsMeet(ps, qs, Split(path), Safe, true);
    }
    if PatternsMeet(ps, qs, Safe, true) {
      var segs := MeetingSegments(ps, qs, Safe, true);
      if segs != [] { SafelyAllowed(segs); }
      MeetingIsNormal(ps, qs, segs);
      var path := CommonPath(a, b, segs);
      SafeMeans(path);
    }
  }
}
