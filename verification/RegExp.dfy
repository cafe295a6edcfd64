/**
 * The part of the regular expression language that glob.ts writes: its text, its terms and their meaning.
 *
 * The syntax follows section 22.2.1 (Patterns) of ECMA-262, without flags: escaped syntax characters, `.`, `[^/]`,
 * non-capturing groups, `*` and `+`, between the anchors `^` and `$`.
 */
module RegExp {
  import opened Wrappers

  datatype CharClass = Just(c: char) | NotSlash | Dot

  datatype Atom = Class(cls: CharClass) | Group(terms: seq<Term>)

  datatype Quantifier = One | Many | OneOrMore

  datatype Term = Term(atom: Atom, quantifier: Quantifier)

  // ---- Meaning ----

  /** The characters that `.` does not match. */
  predicate LineTerminator(c: char) {
    c in {'\n', '\r', '\U{2028}', '\U{2029}'}
  }

  predicate InClass(cls: CharClass, c: char) {
    match cls
    case Just(d) => c == d
    case NotSlash => c != '/'
    case Dot => !LineTerminator(c)
  }

  predicate MatchesAtom(a: Atom, s: string)
    decreases a, 0
  {
    match a
    case Class(cls) => |s| == 1 && InClass(cls, s[0])
    case Group(terms) => Matches(terms, s)
  }

  predicate MatchesMany(a: Atom, s: string)
    decreases a, 1, |s|
  {
    s == [] || exists k :: 0 < k <= |s| && MatchesAtom(a, s[..k]) && MatchesMany(a, s[k..])
  }

  predicate MatchesTerm(t: Term, s: string)
    decreases t
  {
    match t.quantifier
    case One => MatchesAtom(t.atom, s)
    case Many => MatchesMany(t.atom, s)
    case OneOrMore => exists k :: 0 <= k <= |s| && MatchesAtom(t.atom, s[..k]) && MatchesMany(t.atom, s[k..])
  }

  /** The terms, one after the other, consume all of `s`. */
  predicate Matches(terms: seq<Term>, s: string)
    decreases terms
  {
    if terms == [] then s == []
    else exists k :: 0 <= k <= |s| && MatchesTerm(terms[0], s[..k]) && Matches(terms[1..], s[k..])
  }

  // ---- Text ----

  predicate Syntax(c: char) {
    c in {'.', '*', '+', '?', '^', '$', '{', '}', '(', ')', '|', '[', ']', '\\'}
  }

  function ClassText(cls: CharClass): string {
    match cls
    case Just(c) => if Syntax(c) then ['\\', c] else [c]
    case NotSlash => "[^/]"
    case Dot => "."
  }

  function AtomText(a: Atom): string
    decreases a, 0
  {
    match a
    case Class(cls) => ClassText(cls)
    case Group(terms) => "(?:" + Text(terms) + ")"
  }

  function QuantifierText(q: Quantifier): string {
    match q
    case One => ""
    case Many => "*"
    case OneOrMore => "+"
  }

  function TermText(t: Term): string
    decreases t
  {
    AtomText(t.atom) + QuantifierText(t.quantifier)
  }

  function Text(terms: seq<Term>): string
    decreases terms
  {
    if terms == [] then "" else TermText(terms[0]) + Text(terms[1..])
  }

  // ---- Reading the text back ----

  datatype Parse<T> = Fail | Read(value: T, rest: string)

  function StartsWith(s: string, prefix: string): bool {
    |prefix| <= |s| && s[..|prefix|] == prefix
  }

  function ParseAtom(s: string): (r: Parse<Atom>)
    ensures r.Read? ==> |r.rest| < |s|
    decreases |s|, 0
  {
    if s == [] then Fail
    else if s[0] == '\\' then
      if |s| >= 2 && Syntax(s[1]) then Read(Class(Just(s[1])), s[2..]) else Fail
    else if s[0] == '.' then Read(Class(Dot), s[1..])
    else if StartsWith(s, "[^/]") then Read(Class(NotSlash), s[4..])
    else if StartsWith(s, "(?:") then
      match ParseTerms(s[3..])
      case Fail => Fail
      case Read(terms, rest) => if rest != [] && rest[0] == ')' then Read(Group(terms), rest[1..]) else Fail
    else if Syntax(s[0]) then Fail
    else Read(Class(Just(s[0])), s[1..])
  }

  function ParseQuantifier(s: string): (r: Parse<Quantifier>)
    ensures r.Read? && |r.rest| <= |s|
  {
    if s != [] && s[0] == '*' then Read(Many, s[1..])
    else if s != [] && s[0] == '+' then Read(OneOrMore, s[1..])
    else Read(One, s)
  }

  /** Terms up to the end of the text or the end of the group. */
  function ParseTerms(s: string): (r: Parse<seq<Term>>)
    ensures r.Read? ==> |r.rest| <= |s|
    decreases |s|, 1
  {
    if s == [] || s[0] == ')' then Read([], s)
    else
      match ParseAtom(s)
      case Fail => Fail
      case Read(atom, rest) =>
        var q := ParseQuantifier(rest);
        match ParseTerms(q.rest)
        case Fail => Fail
        case Read(terms, remaining) => Read([Term(atom, q.value)] + terms, remaining)
  }

  /** `new RegExp(source)` for an anchored source. */
  function Compile(source: string): Option<seq<Term>> {
    if |source| >= 2 && source[0] == '^' && source[|source| - 1] == '$' then
      match ParseTerms(source[1..|source| - 1])
      case Fail => None
      case Read(terms, rest) => if rest == [] then Some(terms) else None
    else None
  }

  /** `new RegExp(source).test(s)`: the anchors make it a match of the whole string. */
  predicate Test(source: string, s: string) {
    Compile(source).Some? && Matches(Compile(source).value, s)
  }

  /** A text that goes on with nothing a quantifier could be read from. */
  predicate Settled(tail: string) {
    tail == [] || tail[0] !in {'*', '+'}
  }

  lemma TextIsSettled(terms: seq<Term>, tail: string)
    requires tail == [] || tail[0] == ')'
    ensures Settled(Text(terms) + tail)
    ensures terms != [] ==> Text(terms) != [] && Text(terms)[0] != ')'
  {
    if terms != [] {
      var a := terms[0].atom;
      assert AtomText(a) != [] && AtomText(a)[0] !in {'*', '+', ')'};
    }
  }

  lemma StartsWithHead(s: string, prefix: string)
    requires prefix != []
    ensures StartsWith(s, prefix) ==> s[0] == prefix[0]
  {
    if StartsWith(s, prefix) {
      assert s[..|prefix|][0] == s[0];
    }
  }

  /** An atom is read back from its text, whatever follows. */
  lemma {:induction false} AtomRoundTrip(a: Atom, tail: string)
    ensures ParseAtom(AtomText(a) + tail) == Read(a, tail)
    decreases a, 0
  {
    var s := AtomText(a) + tail;
    match a
    case Class(Just(c)) =>
      if Syntax(c) {
        assert s[..1] == ['\\'] && s[2..] == tail;
      } else {
        assert s[0] == c && s[1..] == tail;
        StartsWithHead(s, "[^/]");
        StartsWithHead(s, "(?:");
      }
    case Class(NotSlash) =>
      assert s[..4] == "[^/]" && s[4..] == tail;
    case Class(Dot) =>
      assert s[1..] == tail;
    case Group(terms) =>
      assert s == "(?:" + (Text(terms) + (")" + tail));
      assert s[..3] == "(?:" && s[3..] == Text(terms) + (")" + tail);
      assert s[0] == '(';
      StartsWithHead(s, "[^/]");
      TermsRoundTrip(terms, ")" + tail);
      assert (")" + tail)[1..] == tail;
  }

  /**
   * Terms are read back from their text: nothing in a literal can be taken for syntax, and no literal after a term for
   * its quantifier.
   */
  lemma {:induction false} TermsRoundTrip(terms: seq<Term>, tail: string)
    requires tail == [] || tail[0] == ')'
    ensures ParseTerms(Text(terms) + tail) == Read(terms, tail)
    decreases terms
  {
    var s := Text(terms) + tail;
    if terms == [] {
      assert s == tail;
    } else {
      var t, more := terms[0], terms[1..];
      TextIsSettled(terms, tail);
      TextIsSettled(more, tail);
      assert s[0] == Text(terms)[0];
      var after := QuantifierText(t.quantifier) + (Text(more) + tail);
      assert s == AtomText(t.atom) + after;
      TermRoundTrip(t, after);
      QuantifierRoundTrip(t.quantifier, Text(more) + tail);
      TermsRoundTrip(more, tail);
      assert terms == [t] + more;
    }
  }

  lemma {:induction false} TermRoundTrip(t: Term, tail: string)
    ensures ParseAtom(AtomText(t.atom) + tail) == Read(t.atom, tail)
    decreases t
  {
    AtomRoundTrip(t.atom, tail);
  }

  lemma QuantifierRoundTrip(q: Quantifier, tail: string)
    requires Settled(tail)
    ensures ParseQuantifier(QuantifierText(q) + tail) == Read(q, tail)
  {
    assert ("*" + tail)[1..] == tail && ("+" + tail)[1..] == tail;
    assert "" + tail == tail;
  }

  /** The anchored text of any terms compiles to those terms. */
  lemma CompileText(terms: seq<Term>)
    ensures Compile("^" + Text(terms) + "$") == Some(terms)
  {
    var source := "^" + Text(terms) + "$";
    assert source[1..|source| - 1] == Text(terms) + "";
    TermsRoundTrip(terms, "");
  }

  // ---- Facts about matching ----

  lemma MatchesCons(t: Term, more: seq<Term>, s: string)
    ensures Matches([t] + more, s) <==> exists k :: 0 <= k <= |s| && MatchesTerm(t, s[..k]) && Matches(more, s[k..])
  {
    assert ([t] + more)[1..] == more;
  }

  lemma MatchesOneChar(cls: CharClass, more: seq<Term>, s: string)
    ensures Matches([Term(Class(cls), One)] + more, s) <==> s != [] && InClass(cls, s[0]) && Matches(more, s[1..])
  {
    var t := Term(Class(cls), One);
    MatchesCons(t, more, s);
    if s != [] && InClass(cls, s[0]) && Matches(more, s[1..]) {
      assert s[..1][0] == s[0];
      assert MatchesTerm(t, s[..1]) && Matches(more, s[1..]);
    }
  }

  /** A star that leads a sequence either takes nothing or one more round. */
  lemma MatchesManyCons(a: Atom, more: seq<Term>, s: string)
    ensures Matches([Term(a, Many)] + more, s) <==> Matches(more, s) || TakesRound(a, more, s)
  {
    var t := Term(a, Many);
    if Matches([t] + more, s) && !Matches(more, s) {
      ManyTakesRound(a, more, s);
    }
    if Matches(more, s) {
      MatchesCons(t, more, s);
      assert s[..0] == [] && s[0..] == s;
      assert MatchesTerm(t, s[..0]);
    }
    if TakesRound(a, more, s) {
      RoundMakesMany(a, more, s);
    }
  }

  predicate TakesRound(a: Atom, more: seq<Term>, s: string) {
    exists k :: 0 < k <= |s| && MatchesAtom(a, s[..k]) && Matches([Term(a, Many)] + more, s[k..])
  }

  lemma ManyTakesRound(a: Atom, more: seq<Term>, s: string)
    requires Matches([Term(a, Many)] + more, s) && !Matches(more, s)
    ensures TakesRound(a, more, s)
  {
    var t := Term(a, Many);
    MatchesCons(t, more, s);
    var k :| 0 <= k <= |s| && MatchesTerm(t, s[..k]) && Matches(more, s[k..]);
    assert s[0..] == s;
    assert k > 0 && s[..k] != [] && MatchesMany(a, s[..k]);
    var j :| 0 < j <= |s[..k]| && MatchesAtom(a, s[..k][..j]) && MatchesMany(a, s[..k][j..]);
    assert s[..k][..j] == s[..j] && s[..k][j..] == s[j..][..k - j] && s[k..] == s[j..][k - j..];
    MatchesCons(t, more, s[j..]);
    assert MatchesTerm(t, s[j..][..k - j]);
  }

  lemma RoundMakesMany(a: Atom, more: seq<Term>, s: string)
    requires TakesRound(a, more, s)
    ensures Matches([Term(a, Many)] + more, s)
  {
    hide MatchesAtom;
    var t := Term(a, Many);
    var k :| 0 < k <= |s| && MatchesAtom(a, s[..k]) && Matches([t] + more, s[k..]);
    MatchesCons(t, more, s[k..]);
    var j :| 0 <= j <= |s| - k && MatchesTerm(t, s[k..][..j]) && Matches(more, s[k..][j..]);
    assert s[..k + j][..k] == s[..k] && s[..k + j][k..] == s[k..][..j] && s[k..][j..] == s[k + j..];
    assert MatchesMany(a, s[..k + j]);
    MatchesCons(t, more, s);
    assert MatchesTerm(t, s[..k + j]);
  }
}
