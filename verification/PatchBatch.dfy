/**
 * The batch composer of the patch command (packages/cli/src/commands/patch.ts): it turns entries into an array of
 * operations, digesting the content each patch will find.
 */
module PatchBatch {
  import opened Wrappers
  import opened Patch
  import Glob

  /** A text given inline or by the name of a file; the file is unreadable or has a content. */
  datatype Source = Source(text: Option<string>, file: Option<Option<string>>)

  datatype Entry = Entry(op: Option<string>, path: Option<string>, content: Option<string>, anchor: Source, replacement: Source)

  datatype BatchError = EmptyBatch | BadEntry(index: nat) | Refused(reason: Refusal)

  /** Exactly one of the two. */
  function Pick(source: Source): Option<string> {
    if source.text.Some? == source.file.Some? then None
    else if source.text.Some? then source.text
    else source.file.value
  }

  predicate PathIsSafe(e: Entry) {
    e.path.Some? && Glob.IsSafeRelativePath(e.path.value)
  }

  function OpOf(e: Entry): string {
    if e.op.None? then "patch" else e.op.value
  }

  /** The text is given inline and no file is named, or it is the content of the file and none is given inline. */
  predicate Gives(source: Source, text: string) {
    (source.text == Some(text) && source.file.None?) || (source.text.None? && source.file == Some(Some(text)))
  }

  /** An operation that says what the entry says (a patch, when it names none); for a patch, with any digest. */
  predicate Says(e: Entry, change: Change) {
    && PathIsSafe(e) && change.path == e.path.value
    && match change
       case Create(_, content) => e.op == Some("create") && e.content == Some(content)
       case Update(_, content) => e.op == Some("update") && e.content == Some(content)
       case Delete(_) => e.op == Some("delete")
       case Patch(_, _, anchor, replacement) =>
         e.op in {None, Some("patch")} && Gives(e.anchor, anchor) && Gives(e.replacement, replacement)
  }

  /** What an entry says determines the operation, up to the digest of a patch. */
  lemma SaysOnce(e: Entry, a: Change, b: Change)
    requires Says(e, a) && Says(e, b)
    ensures a.path == b.path && (a.Patch? <==> b.Patch?)
    ensures if a.Patch? then a.anchor == b.anchor && a.replacement == b.replacement else a == b
  {}

  predicate SaysAll(entries: seq<Entry>, chain: seq<Change>) {
    |chain| == |entries| && forall i :: 0 <= i < |entries| ==> Says(entries[i], chain[i])
  }

  predicate Accepted(tree: Tree, chain: seq<Change>) {
    Stage(tree, chain).Ok?
  }

  /**
   * runPatchBuildBatch. For a non-empty batch it composes a chain exactly when some array of operations says what the
   * entries say and stages, and then it is the only one. An empty anchor is not looked at: staging it never returns.
   */
  method BuildBatch(tree: Tree, entries: seq<Entry>) returns (result: Result<seq<Change>, BatchError>)
    ensures result.Ok? ==> SaysAll(entries, result.value) && Accepted(tree, result.value)
    ensures result.Ok? ==> forall other | SaysAll(entries, other) && Accepted(tree, other) :: other == result.value
    ensures entries == [] ==> result == Err(EmptyBatch)
    ensures result.Err? && entries != [] ==> forall other | SaysAll(entries, other) :: !Accepted(tree, other)
  {
    hide Accepted, Stage, StageOne, Edited;
    if entries == [] {
      return Err(EmptyBatch);
    }
    var chain: seq<Change> := [];
    EmptyIsAccepted(tree);
    for i := 0 to |entries|
      invariant SaysAll(entries[..i], chain) && Accepted(tree, chain)
    {
      var e := entries[i];
      assert entries[..i + 1] == entries[..i] + [e];
      if !PathIsSafe(e) {
        NothingSays(entries, i);
        return Err(BadEntry(i));
      }
      var kind := OpOf(e);
      if kind == "create" || kind == "update" {
        if e.content.None? {
          NothingSays(entries, i);
          return Err(BadEntry(i));
        }
        var op := if kind == "create" then Create(e.path.value, e.content.value) else Update(e.path.value, e.content.value);
        SimpleStages(tree, chain, op);
        chain := chain + [op];
      } else if kind == "delete" {
        SimpleStages(tree, chain, Delete(e.path.value));
        chain := chain + [Delete(e.path.value)];
      } else if kind != "patch" {
        NothingSays(entries, i);
        return Err(BadEntry(i));
      } else {
        var anchor, replacement := Pick(e.anchor), Pick(e.replacement);
        if anchor.None? || replacement.None? {
          NothingSays(entries, i);
          return Err(BadEntry(i));
        }
        var overlay := StageChanges(tree, chain);
        if overlay.Err? {
          AcceptedStages(tree, chain);
          assert false;
        }
        var prior := overlay.value.writes;
        if e.path.value !in prior && e.path.value !in tree {
          NoOtherPatch(tree, entries, i, chain, None);
          return Err(Refused(PatchBaseMissing));
        }
        var base := if e.path.value in prior then prior[e.path.value] else tree[e.path.value];
        var op := Patch(e.path.value, OfContent(base), anchor.value, replacement.value);
        var verified := StageChanges(tree, chain + [op]);
        AcceptedMeansStaged(tree, chain + [op]);
        if verified.Err? {
          NoOtherPatch(tree, entries, i, chain, Some(op));
          return Err(Refused(verified.error));
        }
        chain := chain + [op];
      }
    }
    assert entries[..|entries|] == entries;
    forall other | SaysAll(entries, other) && Accepted(tree, other) ensures other == chain {
      OnlyOneChain(tree, entries, other, chain);
    }
    return Ok(chain);
  }

  lemma EmptyIsAccepted(tree: Tree)
    ensures Accepted(tree, [])
  {}

  lemma AcceptedStages(tree: Tree, chain: seq<Change>)
    requires Accepted(tree, chain)
    ensures Stage(tree, chain).Ok?
  {}

  lemma AcceptedMeansStaged(tree: Tree, chain: seq<Change>)
    ensures Accepted(tree, chain) <==> Stage(tree, chain).Ok?
  {}

  lemma StageSnoc(tree: Tree, chain: seq<Change>, op: Change)
    ensures Stage(tree, chain + [op]) == if Stage(tree, chain).Err? then Stage(tree, chain) else StageOne(tree, Stage(tree, chain).value, op)
  {
    assert (chain + [op])[..|chain|] == chain;
  }

  lemma SimpleStages(tree: Tree, chain: seq<Change>, op: Change)
    requires Accepted(tree, chain) && !op.Patch?
    ensures Accepted(tree, chain + [op])
  {
    StageSnoc(tree, chain, op);
  }

  lemma PrefixAccepted(tree: Tree, chain: seq<Change>, n: nat)
    requires Accepted(tree, chain) && n <= |chain|
    ensures Accepted(tree, chain[..n])
  {
    RefusalStays(tree, chain, n);
  }

  lemma NothingSays(entries: seq<Entry>, i: nat)
    requires i < |entries| && forall change :: !Says(entries[i], change)
    ensures forall other :: !SaysAll(entries, other)
  {
    forall other ensures !SaysAll(entries, other) {
      if |other| == |entries| {
        assert !Says(entries[i], other[i]);
      }
    }
  }

  /** The digest of a staged patch is that of the content it found, so equal texts mean equal patches. */
  lemma SameDigest(tree: Tree, chain: seq<Change>, a: Change, b: Change)
    requires Accepted(tree, chain + [a]) && Accepted(tree, chain + [b])
    requires a.Patch? && b.Patch? && a.path == b.path
    ensures a.baseDigest == b.baseDigest
  {
    StageSnoc(tree, chain, a);
    StageSnoc(tree, chain, b);
    hide Stage;
  }

  lemma {:induction false} OnlyOneChain(tree: Tree, entries: seq<Entry>, xs: seq<Change>, ys: seq<Change>)
    requires SaysAll(entries, xs) && SaysAll(entries, ys) && Accepted(tree, xs) && Accepted(tree, ys)
    ensures xs == ys
  {
    hide Accepted, Says;
    if entries != [] {
      var n := |entries| - 1;
      PrefixAccepted(tree, xs, n);
      PrefixAccepted(tree, ys, n);
      OnlyOneChain(tree, entries[..n], xs[..n], ys[..n]);
      assert xs == xs[..n] + [xs[n]] && ys == ys[..n] + [ys[n]];
      SaysOnce(entries[n], xs[n], ys[n]);
      if xs[n].Patch? && ys[n].Patch? {
        SameDigest(tree, xs[..n], xs[n], ys[n]);
      }
    }
  }

  /** A patch that stages found a base, declared its digest, and is settled by its entry. */
  lemma StagedPatch(tree: Tree, chain: seq<Change>, patch: Change)
    requires Accepted(tree, chain) && Accepted(tree, chain + [patch]) && patch.Patch?
    ensures Stage(tree, chain).Ok?
    ensures var base := Base(tree, Stage(tree, chain).value, patch.path); base.Some? && patch.baseDigest == OfContent(base.value)
  {
    StageSnoc(tree, chain, patch);
    hide Stage;
  }

  /** What the composer knows when it gives up on a patch: there is no base, or the one possible operation is refused. */
  predicate GivesUp(tree: Tree, chain: seq<Change>, e: Entry, op: Option<Change>)
    requires Accepted(tree, chain) && PathIsSafe(e)
  {
    var base := Base(tree, Stage(tree, chain).value, e.path.value);
    if op.None? then base.None?
    else
      && op.value.Patch? && Says(e, op.value) && base.Some? && op.value.baseDigest == OfContent(base.value)
      && !Accepted(tree, chain + [op.value])
  }

  lemma NoOtherStep(tree: Tree, chain: seq<Change>, e: Entry, op: Option<Change>, change: Change)
    requires Accepted(tree, chain) && PathIsSafe(e) && GivesUp(tree, chain, e, op) && e.op in {None, Some("patch")} && Says(e, change)
    ensures !Accepted(tree, chain + [change])
  {
    if Accepted(tree, chain + [change]) {
      StagedPatch(tree, chain, change);
    }
  }

  /** Where the composer gives up on a patch, every array that says what the entries say is refused. */
  lemma NoOtherPatch(tree: Tree, entries: seq<Entry>, i: nat, chain: seq<Change>, op: Option<Change>)
    requires i < |entries| && SaysAll(entries[..i], chain) && Accepted(tree, chain)
    requires PathIsSafe(entries[i]) && entries[i].op in {None, Some("patch")} && GivesUp(tree, chain, entries[i], op)
    ensures forall other | SaysAll(entries, other) :: !Accepted(tree, other)
  {
    hide GivesUp, Accepted, PathIsSafe, Says;
    forall other | SaysAll(entries, other) ensures !Accepted(tree, other) {
      if Accepted(tree, other) {
        PrefixAccepted(tree, other, i);
        PrefixAccepted(tree, other, i + 1);
        OnlyOneChain(tree, entries[..i], other[..i], chain);
        assert other[..i + 1] == chain + [other[i]];
        NoOtherStep(tree, chain, entries[i], op, other[i]);
      }
    }
  }
}
