/**
 * patch.ts: staging an array of file operations in memory, all or nothing; execute.ts: applying what was staged.
 */
module Patch {
  import opened Text
  import opened Wrappers

  /** sha256 of a file's content, taken to be injective; `Foreign` is any other text an operation may declare. */
  datatype FileDigest = OfContent(content: string) | Foreign(text: string)

  datatype Change =
    | Create(path: string, content: string)
    | Update(path: string, content: string)
    | Delete(path: string)
    | Patch(path: string, baseDigest: FileDigest, anchor: string, replacement: string)

  datatype Label = Created | Modified | Patched

  /** Why a set is not staged. `NeverReturns` stands for the counting loop of an empty anchor, which has no end. */
  datatype Refusal = PatchBaseMissing | PatchBaseMismatch | PatchAnchorAbsent | PatchAnchorNotUnique | NeverReturns

  /** The overlay, its labels, and the paths to remove. */
  datatype Staged = Staged(writes: map<string, string>, labels: map<string, Label>, deletes: set<string>)

  type Tree = map<string, string>

  const NOTHING := Staged(map[], map[], {})

  // ---- Searching and replacing text ----

  /** countOccurrences, or no count when its loop would not end: see EmptyNeedleIsAlwaysFound. */
  method CountOccurrences(haystack: string, needle: string) returns (result: Option<nat>)
    ensures result == if needle == "" then None else Some(|Occurrences(haystack, needle)|)
  {
    if needle == "" {
      return None;
    }
    var count := 0;
    var i := 0;
    ghost var seen: set<int> := {};
    while true
      invariant 0 <= i <= |haystack| + 1
      invariant seen == (set k | 0 <= k < i && k <= |haystack| && At(haystack, needle, k)) && count == |seen|
      decreases |haystack| + 1 - i
    {
      var found := IndexOf(haystack, needle, i);
      if found.None? {
        assert seen == Occurrences(haystack, needle);
        break;
      }
      seen := seen + {found.value};
      count := count + 1;
      i := found.value + 1;
    }
    return Some(count);
  }

  /** With an empty needle the search always succeeds, wherever it starts, so the counting loop never leaves. */
  lemma EmptyNeedleIsAlwaysFound(text: string, from: nat)
    ensures IndexOf(text, "", from).Some?
  {}

  /** The replacement text of String.prototype.replace (GetSubstitution of ECMA-262), for a match without captures. */
  function Expanded(replacement: string, before: string, matched: string, after: string): string {
    if |replacement| < 2 then replacement
    else if replacement[0] == '$' && replacement[1] in "$&`'" then
      (match replacement[1]
       case '$' => "$"
       case '&' => matched
       case '`' => before
       case _ => after)
      + Expanded(replacement[2..], before, matched, after)
    else
      [replacement[0]] + Expanded(replacement[1..], before, matched, after)
  }

  function Replace(text: string, anchor: string, replacement: string): string {
    match IndexOf(text, anchor, 0)
    case None => text
    case Some(k) =>
      if k + |anchor| > |text| then text
      else
        text[..k] + Expanded(replacement, text[..k], anchor, text[k + |anchor|..]) + text[k + |anchor|..]
  }

  // ---- One operation, staged ----

  /** What the next operation on this path reads: the overlay, else the disk, even when the path is staged for removal. */
  function Base(tree: Tree, st: Staged, path: string): Option<string> {
    if path in st.writes then Some(st.writes[path])
    else if path in tree then Some(tree[path])
    else None
  }

  /** A patch against the content it finds. */
  function Edited(base: Option<string>, change: Change): Result<string, Refusal>
    requires change.Patch?
  {
    if base.None? then Err(PatchBaseMissing)
    else if change.baseDigest != OfContent(base.value) then Err(PatchBaseMismatch)
    else if change.anchor == "" then Err(NeverReturns)
    else if Occurrences(base.value, change.anchor) == {} then Err(PatchAnchorAbsent)
    else if |Occurrences(base.value, change.anchor)| > 1 then Err(PatchAnchorNotUnique)
    else Ok(Replace(base.value, change.anchor, change.replacement))
  }

  function Written(st: Staged, path: string, content: string, how: Label): Staged {
    Staged(st.writes[path := content], st.labels[path := how], st.deletes - {path})
  }

  function StageOne(tree: Tree, st: Staged, change: Change): Result<Staged, Refusal> {
    match change
    case Delete(path) => Ok(Staged(st.writes - {path}, st.labels - {path}, st.deletes + {path}))
    case Create(path, content) => Ok(Written(st, path, content, Created))
    case Update(path, content) => Ok(Written(st, path, content, Modified))
    case Patch(path, _, _, _) =>
      var edited := Edited(Base(tree, st, path), change);
      if edited.Err? then Err(edited.error) else Ok(Written(st, path, edited.value, Patched))
  }

  function Stage(tree: Tree, changes: seq<Change>): Result<Staged, Refusal> {
    if changes == [] then Ok(NOTHING)
    else
      var before := Stage(tree, changes[..|changes| - 1]);
      if before.Err? then before else StageOne(tree, before.value, changes[|changes| - 1])
  }

  /** stageChanges: the tree is only read. */
  method StageChanges(tree: Tree, changes: seq<Change>) returns (result: Result<Staged, Refusal>)
    ensures result == Stage(tree, changes)
  {
    hide Stage;
    var overlay: map<string, string>, labels: map<string, Label>, deletes: set<string> := map[], map[], {};
    StageNone(tree, changes);
    for i := 0 to |changes|
      invariant Stage(tree, changes[..i]) == Ok(Staged(overlay, labels, deletes))
    {
      StageStep(tree, changes, i);
      var change := changes[i];
      match change {
        case Delete(path) =>
          overlay := overlay - {path};
          labels := labels - {path};
          deletes := deletes + {path};
        case Create(path, content) =>
          deletes := deletes - {path};
          overlay := overlay[path := content];
          labels := labels[path := Created];
        case Update(path, content) =>
          deletes := deletes - {path};
          overlay := overlay[path := content];
          labels := labels[path := Modified];
        case Patch(path, baseDigest, anchor, replacement) =>
          RefusalStays(tree, changes, i + 1);
          deletes := deletes - {path};
          if path !in overlay && path !in tree {
            return Err(PatchBaseMissing);
          }
          var base := if path in overlay then overlay[path] else tree[path];
          if OfContent(base) != baseDigest {
            return Err(PatchBaseMismatch);
          }
          var occurrences := CountOccurrences(base, anchor);
          if occurrences.None? {
            return Err(NeverReturns);
          }
          if occurrences.value == 0 {
            return Err(PatchAnchorAbsent);
          }
          if occurrences.value > 1 {
            return Err(PatchAnchorNotUnique);
          }
          overlay := overlay[path := Replace(base, anchor, replacement)];
          labels := labels[path := Patched];
      }
    }
    assert changes[..|changes|] == changes;
    return Ok(Staged(overlay, labels, deletes));
  }

  lemma StageNone(tree: Tree, changes: seq<Change>)
    ensures Stage(tree, changes[..0]) == Ok(NOTHING)
  {}

  lemma StageStep(tree: Tree, changes: seq<Change>, i: nat)
    requires i < |changes| && Stage(tree, changes[..i]).Ok?
    ensures Stage(tree, changes[..i + 1]) == StageOne(tree, Stage(tree, changes[..i]).value, changes[i])
  {
    assert changes[..i + 1][..i] == changes[..i];
  }

  /** One refusal refuses the whole set. */
  lemma {:induction false} RefusalStays(tree: Tree, changes: seq<Change>, n: nat)
    requires n <= |changes|
    ensures Stage(tree, changes[..n]).Err? ==> Stage(tree, changes) == Stage(tree, changes[..n])
  {
    if n < |changes| {
      assert changes[..|changes| - 1][..n] == changes[..n];
      RefusalStays(tree, changes[..|changes| - 1], n);
    } else {
      assert changes[..n] == changes;
    }
  }

  /** An operation whose counting loop has no end: a patch with an empty anchor that declares the digest it finds. */
  predicate Hangs(tree: Tree, st: Staged, change: Change) {
    change.Patch? && change.anchor == "" && Base(tree, st, change.path).Some?
    && change.baseDigest == OfContent(Base(tree, st, change.path).value)
  }

  predicate HangsAt(tree: Tree, changes: seq<Change>, n: nat)
    requires n < |changes|
  {
    Stage(tree, changes[..n]).Ok? && Hangs(tree, Stage(tree, changes[..n]).value, changes[n])
  }

  lemma StageHangs(tree: Tree, changes: seq<Change>, n: nat)
    requires n < |changes| && Stage(tree, changes[..n]).Ok?
    ensures Stage(tree, changes[..n + 1]) == Err(NeverReturns) <==> HangsAt(tree, changes, n)
  {
    StageStep(tree, changes, n);
    hide Stage;
  }

  /**
   * Staging fails to return if and only if it reaches such an operation, with everything before it staged. Where every
   * anchor has a character, as the result schema demands of an executor, it always returns.
   */
  lemma NeverReturnsMeans(tree: Tree, changes: seq<Change>)
    ensures Stage(tree, changes) == Err(NeverReturns) <==> exists n: nat :: n < |changes| && HangsAt(tree, changes, n)
  {
    if n: nat :| n < |changes| && HangsAt(tree, changes, n) {
      StageHangs(tree, changes, n);
      RefusalStays(tree, changes, n + 1);
    }
    if Stage(tree, changes) == Err(NeverReturns) {
      var n := FirstRefusal(tree, changes);
      StageHangs(tree, changes, n);
      RefusalStays(tree, changes, n + 1);
    }
  }

  lemma {:induction false} FirstRefusal(tree: Tree, changes: seq<Change>) returns (n: nat)
    requires Stage(tree, changes).Err?
    ensures n < |changes| && Stage(tree, changes[..n]).Ok? && Stage(tree, changes[..n + 1]).Err?
  {
    var k := |changes| - 1;
    var init := changes[..k];
    if Stage(tree, init).Err? {
      n := FirstRefusal(tree, init);
      assert init[..n] == changes[..n] && init[..n + 1] == changes[..n + 1];
    } else {
      n := k;
      assert changes[..k + 1] == changes;
    }
  }

  // ---- Applying what was staged ----

  function Applied(tree: Tree, st: Staged): Tree {
    (tree + st.writes) - st.deletes
  }

  class Worktree {
    var files: Tree

    constructor (files: Tree)
      ensures this.files == files
    {
      this.files := files;
    }

    /** The executor's writes, then its removals, in any order of their paths. */
    method Apply(st: Staged)
      modifies this
      ensures files == Applied(old(files), st)
    {
      var todo := st.writes.Keys;
      assert files == files + (st.writes - todo);
      while todo != {}
        invariant todo <= st.writes.Keys
        invariant files == old(files) + (st.writes - todo)
      {
        var p :| p in todo;
        OneMoreWritten(old(files), st.writes, todo, p);
        files := files[p := st.writes[p]];
        todo := todo - {p};
      }
      assert st.writes - todo == st.writes;
      var gone := st.deletes;
      while gone != {}
        invariant gone <= st.deletes
        invariant files == (old(files) + st.writes) - (st.deletes - gone)
      {
        var p :| p in gone;
        files := files - {p};
        gone := gone - {p};
      }
    }
  }

  lemma OneMoreWritten(tree: Tree, writes: map<string, string>, todo: set<string>, path: string)
    requires path in todo && path in writes
    ensures tree + (writes - (todo - {path})) == (tree + (writes - todo))[path := writes[path]]
  {}

  // ---- What staging means ----

  /** The last operation on a path. */
  function LastTouch(changes: seq<Change>, path: string): Option<Change> {
    if changes == [] then None
    else if changes[|changes| - 1].path == path then Some(changes[|changes| - 1])
    else LastTouch(changes[..|changes| - 1], path)
  }

  function LabelOf(change: Change): Label
    requires !change.Delete?
  {
    if change.Create? then Created else if change.Update? then Modified else Patched
  }

  /**
   * A path is written, removed or left alone according to the last operation on it, and the label is that of the last
   * write: no path is both written and removed, and every write carries a label.
   */
  lemma {:induction false} LastTouchDecides(tree: Tree, changes: seq<Change>, path: string)
    requires Stage(tree, changes).Ok?
    ensures var st, last := Stage(tree, changes).value, LastTouch(changes, path);
            && (path in st.writes <==> last.Some? && !last.value.Delete?)
            && (path in st.deletes <==> last.Some? && last.value.Delete?)
            && (path in st.labels <==> path in st.writes)
            && (path in st.writes ==> st.labels[path] == LabelOf(last.value))
            && (path in st.writes && !last.value.Patch? ==> st.writes[path] == last.value.content)
  {
    if changes != [] {
      LastTouchDecides(tree, changes[..|changes| - 1], path);
    }
  }

  lemma {:induction false} WritesAndDeletesDisjoint(tree: Tree, changes: seq<Change>)
    requires Stage(tree, changes).Ok?
    ensures var st := Stage(tree, changes).value; st.writes.Keys !! st.deletes && st.labels.Keys == st.writes.Keys
  {
    var st := Stage(tree, changes).value;
    forall p: string
      ensures (p in st.writes <==> p in st.labels) && !(p in st.writes && p in st.deletes)
    {
      LastTouchDecides(tree, changes, p);
    }
  }

  // ---- What a patch does ----

  /** Not one occurrence, one alone, or at least two, overlapping ones included. */
  predicate Nowhere(text: string, anchor: string) {
    forall k :: 0 <= k <= |text| ==> !At(text, anchor, k)
  }

  predicate OnlyAt(text: string, anchor: string, k: nat) {
    At(text, anchor, k) && forall m :: 0 <= m <= |text| && At(text, anchor, m) ==> m == k
  }

  predicate Twice(text: string, anchor: string) {
    exists k, m :: 0 <= k < m <= |text| && At(text, anchor, k) && At(text, anchor, m)
  }

  lemma OccurrencesMean(text: string, anchor: string)
    ensures Occurrences(text, anchor) == {} <==> Nowhere(text, anchor)
    ensures |Occurrences(text, anchor)| > 1 <==> Twice(text, anchor)
    ensures |Occurrences(text, anchor)| == 1 <==> exists k: nat :: OnlyAt(text, anchor, k)
  {
    var found := Occurrences(text, anchor);
    if Nowhere(text, anchor) {
      assert found == {};
    } else {
      var k: nat :| k <= |text| && At(text, anchor, k);
      assert k in found;
      if OnlyAt(text, anchor, k) {
        assert found == {k};
      } else {
        var m :| 0 <= m <= |text| && At(text, anchor, m) && m != k;
        assert {k, m} <= found;
        CardinalityOfSubset({k, m}, found);
        assert At(text, anchor, if k < m then k else m) && At(text, anchor, if k < m then m else k);
        assert Twice(text, anchor);
        assert forall j: nat :: !OnlyAt(text, anchor, j);
      }
      if Twice(text, anchor) {
        var i, j :| 0 <= i < j <= |text| && At(text, anchor, i) && At(text, anchor, j);
        assert {i, j} <= found;
        CardinalityOfSubset({i, j}, found);
      }
    }
  }

  /** How a patch fares against content `b` at its path. */
  datatype Fate = Stale | Endless | Absent | Ambiguous | Placed(k: nat)

  ghost predicate Fares(b: string, patch: Change, fate: Fate)
    requires patch.Patch?
  {
    var fits := patch.baseDigest == OfContent(b);
    match fate
    case Stale => !fits
    case Endless => fits && patch.anchor == ""
    case Absent => fits && patch.anchor != "" && Nowhere(b, patch.anchor)
    case Ambiguous => fits && patch.anchor != "" && Twice(b, patch.anchor)
    case Placed(k) => fits && patch.anchor != "" && OnlyAt(b, patch.anchor, k)
  }

  /**
   * After a staged set, a patch meets what the set left at its path: what it wrote there, else what is on disk. Without
   * either it is refused; otherwise it is refused as stale, as absent or as ambiguous, or it never returns, or it is
   * staged, exactly when the digest and the positions of the anchor say so. Staged, it changes its own path alone, and the
   * one occurrence gives way to the replacement, as written when that holds no interpreted dollar.
   */
  lemma PatchMeans(tree: Tree, changes: seq<Change>, patch: Change)
    requires Stage(tree, changes).Ok? && patch.Patch?
    ensures var st, result := Stage(tree, changes).value, Stage(tree, changes + [patch]);
            var p := patch.path;
            if p !in st.writes && p !in tree then result == Err(PatchBaseMissing)
            else
              var b := if p in st.writes then st.writes[p] else tree[p];
              && (result == Err(PatchBaseMismatch) <==> Fares(b, patch, Stale))
              && (result == Err(NeverReturns) <==> Fares(b, patch, Endless))
              && (result == Err(PatchAnchorAbsent) <==> Fares(b, patch, Absent))
              && (result == Err(PatchAnchorNotUnique) <==> Fares(b, patch, Ambiguous))
              && (result.Ok? <==> exists k :: Fares(b, patch, Placed(k)))
              && (result.Ok? ==>
                    && result.value.deletes == st.deletes - {p} && result.value.labels == st.labels[p := Patched]
                    && result.value.writes.Keys == st.writes.Keys + {p}
                    && (forall other <- st.writes | other != p :: result.value.writes[other] == st.writes[other])
                    && forall k: nat | OnlyAt(b, patch.anchor, k) && !Interpreted(patch.replacement) ::
                         result.value.writes[p] == b[..k] + patch.replacement + b[k + |patch.anchor|..])
  {
    assert (changes + [patch])[..|changes|] == changes;
    var st, p := Stage(tree, changes).value, patch.path;
    assert Stage(tree, changes + [patch]) == StageOne(tree, st, patch);
    hide Stage, Edited, Fares;
    if p in st.writes || p in tree {
      EditedMeans(if p in st.writes then st.writes[p] else tree[p], patch);
    }
  }

  lemma EditedMeans(b: string, patch: Change)
    requires patch.Patch?
    ensures var edited := Edited(Some(b), patch);
            && (edited == Err(PatchBaseMismatch) <==> Fares(b, patch, Stale))
            && (edited == Err(NeverReturns) <==> Fares(b, patch, Endless))
            && (edited == Err(PatchAnchorAbsent) <==> Fares(b, patch, Absent))
            && (edited == Err(PatchAnchorNotUnique) <==> Fares(b, patch, Ambiguous))
            && edited != Err(PatchBaseMissing)
            && (edited.Ok? <==> exists k :: Fares(b, patch, Placed(k)))
            && forall k: nat | edited.Ok? && OnlyAt(b, patch.anchor, k) && !Interpreted(patch.replacement) ::
                 edited.value == b[..k] + patch.replacement + b[k + |patch.anchor|..]
  {
    OccurrencesMean(b, patch.anchor);
    var found := Occurrences(b, patch.anchor);
    assert found == {} || |found| == 1 || |found| > 1;
    hide Occurrences, Nowhere, Twice, Replace, Interpreted, OnlyAt;
    if k: nat :| OnlyAt(b, patch.anchor, k) {
      assert Fares(b, patch, Placed(k)) <==> patch.baseDigest == OfContent(b) && patch.anchor != "";
    }
    forall k: nat | patch.anchor != "" && OnlyAt(b, patch.anchor, k) && !Interpreted(patch.replacement)
      ensures Replace(b, patch.anchor, patch.replacement) == b[..k] + patch.replacement + b[k + |patch.anchor|..]
    {
      PlainReplaced(b, patch.anchor, patch.replacement, k);
    }
  }

  lemma PlainReplaced(b: string, anchor: string, replacement: string, k: nat)
    requires anchor != "" && OnlyAt(b, anchor, k) && !Interpreted(replacement)
    ensures Replace(b, anchor, replacement) == b[..k] + replacement + b[k + |anchor|..]
  {
    OccurrencesMean(b, anchor);
    PlainIsExact(b, anchor, replacement);
    assert k in Occurrences(b, anchor);
  }

  // ---- Staging against running the operations one by one ----

  function RunOne(tree: Tree, change: Change): Result<Tree, Refusal> {
    match change
    case Delete(path) => Ok(tree - {path})
    case Create(path, content) => Ok(tree[path := content])
    case Update(path, content) => Ok(tree[path := content])
    case Patch(path, _, _, _) =>
      var edited := Edited(if path in tree then Some(tree[path]) else None, change);
      if edited.Err? then Err(edited.error) else Ok(tree[path := edited.value])
  }

  function RunEach(tree: Tree, changes: seq<Change>): Result<Tree, Refusal> {
    if changes == [] then Ok(tree)
    else
      var before := RunEach(tree, changes[..|changes| - 1]);
      if before.Err? then before else RunOne(before.value, changes[|changes| - 1])
  }

  /** A patch whose path the operation before it on that path removed. */
  predicate PatchesRemoved(changes: seq<Change>) {
    exists i :: 0 <= i < |changes| && RemovedBefore(changes, i)
  }

  predicate RemovedBefore(changes: seq<Change>, i: nat)
    requires i < |changes|
  {
    changes[i].Patch? && LastTouch(changes[..i], changes[i].path).Some? && LastTouch(changes[..i], changes[i].path).value.Delete?
  }

  lemma PatchesRemovedPrefix(changes: seq<Change>, n: nat)
    requires n <= |changes|
    ensures PatchesRemoved(changes[..n]) ==> PatchesRemoved(changes)
  {
    if PatchesRemoved(changes[..n]) {
      var i: nat :| i < |changes[..n]| && RemovedBefore(changes[..n], i);
      assert changes[..n][..i] == changes[..i];
      assert RemovedBefore(changes, i);
    }
  }

  function Outcome(tree: Tree, staged: Result<Staged, Refusal>): Result<Tree, Refusal> {
    if staged.Err? then Err(staged.error) else Ok(Applied(tree, staged.value))
  }

  /** Unless a patch follows a removal of its path, the staged set refuses and does what running each operation does. */
  lemma {:induction false} StagingRunsEach(tree: Tree, changes: seq<Change>)
    requires !PatchesRemoved(changes)
    ensures RunEach(tree, changes) == Outcome(tree, Stage(tree, changes))
  {
    if changes == [] {
      assert Applied(tree, NOTHING) == tree;
    } else {
      var init, last := changes[..|changes| - 1], changes[|changes| - 1];
      PatchesRemovedPrefix(changes, |changes| - 1);
      StagingRunsEach(tree, init);
      var before := Stage(tree, init);
      if before.Ok? {
        assert !RemovedBefore(changes, |changes| - 1);
        LastTouchDecides(tree, init, last.path);
        OneStep(tree, before.value, last);
      }
    }
  }

  lemma WritingCommutes(tree: Tree, st: Staged, path: string, content: string, how: Label)
    ensures Applied(tree, Written(st, path, content, how)) == Applied(tree, st)[path := content]
  {}

  lemma RemovingCommutes(tree: Tree, st: Staged, path: string)
    ensures Applied(tree, Staged(st.writes - {path}, st.labels - {path}, st.deletes + {path})) == Applied(tree, st) - {path}
  {}

  lemma OneStep(tree: Tree, st: Staged, change: Change)
    requires change.Patch? ==> change.path !in st.deletes
    ensures RunOne(Applied(tree, st), change) == Outcome(tree, StageOne(tree, st, change))
  {
    var p := change.path;
    match change {
      case Delete(_) =>
        hide Edited, Applied, Written;
        RemovingCommutes(tree, st, p);
      case Create(_, content) =>
        hide Edited, Applied, Written;
        WritingCommutes(tree, st, p, content, Created);
      case Update(_, content) =>
        hide Edited, Applied, Written;
        WritingCommutes(tree, st, p, content, Modified);
      case Patch(_, _, _, _) =>
        assert Base(tree, st, p) == if p in Applied(tree, st) then Some(Applied(tree, st)[p]) else None;
        hide Edited, Applied, Written, Base;
        var edited := Edited(Base(tree, st, p), change);
        if edited.Ok? {
          WritingCommutes(tree, st, p, edited.value, Patched);
        }
    }
  }

  lemma {:induction false} EachRefusalStays(tree: Tree, changes: seq<Change>, n: nat)
    requires n <= |changes|
    ensures RunEach(tree, changes[..n]).Err? ==> RunEach(tree, changes).Err?
  {
    if n < |changes| {
      assert changes[..|changes| - 1][..n] == changes[..n];
      EachRefusalStays(tree, changes[..|changes| - 1], n);
    } else {
      assert changes[..n] == changes;
    }
  }

  lemma {:induction false} RemovedIsGone(tree: Tree, changes: seq<Change>, path: string)
    requires LastTouch(changes, path).Some? && LastTouch(changes, path).value.Delete?
    ensures RunEach(tree, changes).Ok? ==> path !in RunEach(tree, changes).value
  {
    var last := changes[|changes| - 1];
    if last.path != path {
      RemovedIsGone(tree, changes[..|changes| - 1], path);
    }
  }

  /** Run one by one, such a patch is always refused. */
  lemma PatchAfterDeleteRefused(tree: Tree, changes: seq<Change>)
    requires PatchesRemoved(changes)
    ensures RunEach(tree, changes).Err?
  {
    var i: nat :| i < |changes| && RemovedBefore(changes, i);
    RemovedIsGone(tree, changes[..i], changes[i].path);
    assert changes[..i + 1][..i] == changes[..i];
    EachRefusalStays(tree, changes, i + 1);
    EachRefusalStays(tree, changes, i);
  }

  /** A set that stages does what its operations do one by one if and only if no patch follows a removal of its path. */
  lemma StagedMeansEach(tree: Tree, changes: seq<Change>)
    requires Stage(tree, changes).Ok?
    ensures RunEach(tree, changes) == Ok(Applied(tree, Stage(tree, changes).value)) <==> !PatchesRemoved(changes)
  {
    if PatchesRemoved(changes) {
      PatchAfterDeleteRefused(tree, changes);
    } else {
      StagingRunsEach(tree, changes);
    }
  }

  /** The removed content comes back: a delete and then a patch of the same path stages, and writes. */
  lemma PatchAfterDeleteStages(path: string)
    ensures var changes := [Delete(path), Patch(path, OfContent("a"), "a", "b")];
            && PatchesRemoved(changes) && Stage(map[path := "a"], changes).Ok?
            && Applied(map[path := "a"], Stage(map[path := "a"], changes).value) == map[path := "b"]
  {
    var tree: Tree := map[path := "a"];
    var patch := Patch(path, OfContent("a"), "a", "b");
    var changes := [Delete(path), patch];
    assert changes[..1] == [Delete(path)] && changes[..1][..0] == [];
    assert RemovedBefore(changes, 1);
    assert Occurrences("a", "a") == {0} by {
      assert At("a", "a", 0);
    }
    assert Replace("a", "a", "b") == "b" by {
      assert At("a", "a", 0);
    }
    var removed := Staged(map[], map[], {path});
    assert NOTHING.writes - {path} == map[] && NOTHING.labels - {path} == map[] && NOTHING.deletes + {path} == {path};
    assert Stage(tree, changes[..1][..0]) == Ok(NOTHING);
    assert Stage(tree, changes[..1]) == StageOne(tree, NOTHING, changes[..1][0]);
    assert Edited(Some("a"), patch) == Ok("b");
    assert removed.deletes - {path} == {};
    assert Stage(tree, changes) == Ok(Staged(map[path := "b"], map[path := Patched], {}));
  }

  // ---- Staging in two halves ----

  lemma {:induction false} RunEachConcat(tree: Tree, xs: seq<Change>, ys: seq<Change>)
    ensures RunEach(tree, xs + ys) == (if RunEach(tree, xs).Err? then RunEach(tree, xs) else RunEach(RunEach(tree, xs).value, ys))
  {
    if ys == [] {
      assert xs + ys == xs;
    } else {
      var init := ys[..|ys| - 1];
      assert (xs + ys)[..|xs + ys| - 1] == xs + init;
      RunEachConcat(tree, xs, init);
    }
  }

  lemma {:induction false} LastTouchSuffix(xs: seq<Change>, ys: seq<Change>, path: string)
    ensures LastTouch(xs + ys, path) == if LastTouch(ys, path).Some? then LastTouch(ys, path) else LastTouch(xs, path)
  {
    if ys == [] {
      assert xs + ys == xs;
    } else {
      assert (xs + ys)[..|xs + ys| - 1] == xs + ys[..|ys| - 1];
      LastTouchSuffix(xs, ys[..|ys| - 1], path);
    }
  }

  lemma PatchesRemovedSuffix(xs: seq<Change>, ys: seq<Change>)
    ensures PatchesRemoved(ys) ==> PatchesRemoved(xs + ys)
  {
    if PatchesRemoved(ys) {
      var i: nat :| i < |ys| && RemovedBefore(ys, i);
      assert (xs + ys)[..|xs| + i] == xs + ys[..i];
      LastTouchSuffix(xs, ys[..i], ys[i].path);
      assert RemovedBefore(xs + ys, |xs| + i);
    }
  }

  /**
   * Staging xs then ys in one set is staging xs, applying it, and staging ys on the tree after: the same refusal or the
   * same tree, for all sets without a patch after a removal of its path.
   */
  lemma {:induction false} StagingComposes(tree: Tree, xs: seq<Change>, ys: seq<Change>)
    requires !PatchesRemoved(xs + ys)
    ensures var first := Outcome(tree, Stage(tree, xs));
            Outcome(tree, Stage(tree, xs + ys)) == if first.Err? then first else Outcome(first.value, Stage(first.value, ys))
  {
    assert (xs + ys)[..|xs|] == xs;
    PatchesRemovedPrefix(xs + ys, |xs|);
    PatchesRemovedSuffix(xs, ys);
    hide PatchesRemoved, Stage, RunEach;
    StagingRunsEach(tree, xs + ys);
    StagingRunsEach(tree, xs);
    RunEachConcat(tree, xs, ys);
    var first := RunEach(tree, xs);
    if first.Ok? {
      StagingRunsEach(first.value, ys);
    }
  }

  // ---- The replacement text ----

  /** A dollar sign that String.prototype.replace interprets. */
  predicate Interpreted(replacement: string) {
    exists i :: 0 <= i < |replacement| - 1 && replacement[i] == '$' && replacement[i + 1] in "$&`'"
  }

  lemma InterpretedTail(replacement: string)
    requires replacement != ""
    ensures Interpreted(replacement[1..]) ==> Interpreted(replacement)
  {
    var rest := replacement[1..];
    if Interpreted(rest) {
      var i :| 0 <= i < |rest| - 1 && rest[i] == '$' && rest[i + 1] in "$&`'";
      assert replacement[i + 1] == '$' && replacement[i + 2] in "$&`'";
    }
  }

  lemma {:induction false} PlainExpands(replacement: string, before: string, matched: string, after: string)
    requires !Interpreted(replacement)
    ensures Expanded(replacement, before, matched, after) == replacement
  {
    if |replacement| >= 2 {
      var rest := replacement[1..];
      InterpretedTail(replacement);
      PlainExpands(rest, before, matched, after);
      assert replacement == [replacement[0]] + rest;
    }
  }

  /** The pieces of a replacement text: characters, and the four sequences with a meaning. */
  datatype Piece = Character(c: char) | Dollar | Match | Before | After

  function Spelled(pieces: seq<Piece>): string {
    if pieces == [] then ""
    else
      (match pieces[0] case Character(c) => [c] case Dollar => "$$" case Match => "$&" case Before => "$`" case After => "$'")
      + Spelled(pieces[1..])
  }

  function Meant(pieces: seq<Piece>, before: string, matched: string, after: string): string {
    if pieces == [] then ""
    else
      (match pieces[0] case Character(c) => [c] case Dollar => "$" case Match => matched case Before => before case After => after)
      + Meant(pieces[1..], before, matched, after)
  }

  lemma ExpandedPair(c: char, rest: string, before: string, matched: string, after: string)
    requires c in "$&`'"
    ensures Expanded(['$', c] + rest, before, matched, after)
            == (if c == '$' then "$" else if c == '&' then matched else if c == '`' then before else after)
               + Expanded(rest, before, matched, after)
  {
    assert (['$', c] + rest)[2..] == rest;
  }

  lemma ExpandedPlain(c: char, rest: string, before: string, matched: string, after: string)
    requires c != '$'
    ensures Expanded([c] + rest, before, matched, after) == [c] + Expanded(rest, before, matched, after)
  {
    assert ([c] + rest)[1..] == rest;
  }

  /** However it is spelled with dollars only in the four sequences, a replacement expands to what its pieces mean. */
  lemma {:induction false} ExpandedMeans(pieces: seq<Piece>, before: string, matched: string, after: string)
    requires forall p <- pieces :: p != Character('$')
    ensures Expanded(Spelled(pieces), before, matched, after) == Meant(pieces, before, matched, after)
  {
    if pieces != [] {
      var rest := Spelled(pieces[1..]);
      assert forall p <- pieces[1..] :: p in pieces;
      ExpandedMeans(pieces[1..], before, matched, after);
      assert pieces[0] in pieces;
      hide Expanded;
      match pieces[0]
      case Character(c) => ExpandedPlain(c, rest, before, matched, after);
      case Dollar => ExpandedPair('$', rest, before, matched, after);
      case Match => ExpandedPair('&', rest, before, matched, after);
      case Before => ExpandedPair('`', rest, before, matched, after);
      case After => ExpandedPair('\'', rest, before, matched, after);
    }
  }

  lemma {:induction false} InterpretedShrinks(replacement: string, c: char)
    ensures |Expanded(replacement, "", [c], "")| <= |replacement|
    ensures Interpreted(replacement) ==> |Expanded(replacement, "", [c], "")| < |replacement|
  {
    if |replacement| >= 2 {
      if replacement[0] == '$' && replacement[1] in "$&`'" {
        InterpretedShrinks(replacement[2..], c);
      } else {
        var rest := replacement[1..];
        InterpretedShrinks(rest, c);
        if Interpreted(replacement) {
          var i :| 0 <= i < |replacement| - 1 && replacement[i] == '$' && replacement[i + 1] in "$&`'";
          assert rest[i - 1] == replacement[i] && rest[i] == replacement[i + 1];
        }
      }
    }
  }

  /** What the result schema promises of a patch: the one occurrence of the anchor gives way to the replacement itself. */
  predicate ExactSubstitute(base: string, anchor: string, replacement: string) {
    forall k <- Occurrences(base, anchor) :: Replace(base, anchor, replacement) == base[..k] + replacement + base[k + |anchor|..]
  }

  lemma SoleOccurrence(base: string, anchor: string, k: int)
    requires anchor != "" && |Occurrences(base, anchor)| == 1 && k in Occurrences(base, anchor)
    ensures IndexOf(base, anchor, 0) == Some(k)
  {
    var found := IndexOf(base, anchor, 0);
    if found.Some? && found.value != k {
      assert found.value in Occurrences(base, anchor);
      assert {found.value, k} <= Occurrences(base, anchor);
      CardinalityOfSubset({found.value, k}, Occurrences(base, anchor));
    }
  }

  lemma CardinalityOfSubset(xs: set<int>, ys: set<int>)
    requires xs <= ys
    ensures |xs| <= |ys|
  {
    assert ys == xs + (ys - xs);
  }

  lemma PlainIsExact(base: string, anchor: string, replacement: string)
    requires !Interpreted(replacement) && anchor != "" && |Occurrences(base, anchor)| == 1
    ensures ExactSubstitute(base, anchor, replacement)
  {
    forall k | k in Occurrences(base, anchor)
      ensures Replace(base, anchor, replacement) == base[..k] + replacement + base[k + |anchor|..]
    {
      SoleOccurrence(base, anchor, k);
      PlainExpands(replacement, base[..k], anchor, base[k + |anchor|..]);
    }
  }

  lemma InterpretedIsNotExact(replacement: string)
    requires Interpreted(replacement)
    ensures |Occurrences("a", "a")| == 1 && !ExactSubstitute("a", "a", replacement)
  {
    InterpretedShrinks(replacement, 'a');
    assert At("a", "a", 0);
    assert Occurrences("a", "a") == {0};
    assert |Replace("a", "a", replacement)| < |replacement|;
  }

  /** The code keeps that promise for every base and anchor exactly when the replacement has no interpreted dollar. */
  lemma SubstituteIsExact(replacement: string)
    ensures !Interpreted(replacement) <==>
            forall base, anchor | anchor != "" && |Occurrences(base, anchor)| == 1 :: ExactSubstitute(base, anchor, replacement)
  {
    hide ExactSubstitute, Occurrences, Interpreted;
    if Interpreted(replacement) {
      InterpretedIsNotExact(replacement);
    } else {
      forall base: string, anchor: string | anchor != "" && |Occurrences(base, anchor)| == 1
        ensures ExactSubstitute(base, anchor, replacement)
      {
        PlainIsExact(base, anchor, replacement);
      }
    }
  }
}
