/**
 * The append-only log files of a run, and the digests their records carry.
 */
module LogFile {
  import opened Wrappers

  /**
   * SHA-256 over canonical JSON, taken to be injective and never equal to the genesis pointer: a digest is the
   * content it was computed from. `Foreign` stands for any other text found in a file.
   */
  datatype Digest =
    | Genesis
    | Foreign(text: string)
    | OfEvent(event: Event)
    | OfEvidence(id: EvidenceId, body: string, chain: Option<Digest>)
    | OfHeads(heads: seq<(EvidenceId, Digest)>)

  /** EV-0001 and the like, or any other text. */
  datatype EvidenceId = EV(number: nat) | Named(text: string)

  datatype Event = Event(seqNo: nat, id: string, kind: string, runId: string, timestamp: string, payload: string,
                         chain: Option<Digest>)

  datatype Evidence = Evidence(id: EvidenceId, body: string, chain: Option<Digest>, digest: Digest)

  /** A trimmed line: empty, not a record (it does not parse or fails the schema), or a record. */
  datatype Line<T> = Blank | Broken | Record(value: T)

  /** The newline-terminated lines, and what follows the last newline. */
  datatype Log<T> = Log(lines: seq<Line<T>>, tail: Line<T>)

  /**
   * Appending a record and a newline. After a blank tail that is a line of its own; after any other text the two
   * run together into a line that is no record.
   */
  function Appended<T>(file: Log<T>, value: T): Log<T> {
    Log(file.lines + [if file.tail.Blank? then Record(value) else Broken], Blank)
  }

  /** The file that store objects share. */
  class Disk<T> {
    var file: Log<T>

    constructor (file: Log<T>)
      ensures this.file == file
    {
      this.file := file;
    }
  }

  datatype ChainStatus = Chained | Legacy

  datatype LoadError = CorruptLine | DigestMismatch | MixedChain | ChainBreak | MissingGenesis

  /** What a store holds after reading, and the error that stopped it, if any. */
  datatype Loaded<T> = Loaded(records: seq<T>, status: Option<ChainStatus>, error: Option<LoadError>)

  /** Reading one line: blank ones are skipped, a broken one is tolerated only as a torn tail. */
  function ReadLine<T>(st: Loaded<T>, line: Line<T>, tornTail: bool, accept: (Loaded<T>, T) -> Loaded<T>): Loaded<T> {
    match line
    case Blank => st
    case Broken => if tornTail then st else st.(error := Some(CorruptLine))
    case Record(value) => accept(st, value)
  }

  /** The newline-terminated lines; the first error stops the reading. */
  function ReadLines<T>(st: Loaded<T>, lines: seq<Line<T>>, accept: (Loaded<T>, T) -> Loaded<T>): Loaded<T> {
    if lines == [] then st
    else
      var before := ReadLines(st, lines[..|lines| - 1], accept);
      if before.error.Some? then before else ReadLine(before, lines[|lines| - 1], false, accept)
  }

  function ReadFile<T>(st: Loaded<T>, file: Log<T>, accept: (Loaded<T>, T) -> Loaded<T>): Loaded<T> {
    var read := ReadLines(st, file.lines, accept);
    if read.error.Some? then read else ReadLine(read, file.tail, true, accept)
  }

  lemma ReadNone<T>(st: Loaded<T>, lines: seq<Line<T>>, accept: (Loaded<T>, T) -> Loaded<T>)
    ensures ReadLines(st, lines[..0], accept) == st
  {}

  lemma ReadStep<T>(st: Loaded<T>, lines: seq<Line<T>>, i: nat, accept: (Loaded<T>, T) -> Loaded<T>)
    requires i < |lines| && ReadLines(st, lines[..i], accept).error.None?
    ensures ReadLines(st, lines[..i + 1], accept) == ReadLine(ReadLines(st, lines[..i], accept), lines[i], false, accept)
  {
    assert lines[..i + 1][..i] == lines[..i];
  }

  lemma {:induction false} ErrorStays<T>(st: Loaded<T>, lines: seq<Line<T>>, n: nat, accept: (Loaded<T>, T) -> Loaded<T>)
    requires n <= |lines| && ReadLines(st, lines[..n], accept).error.Some?
    ensures ReadLines(st, lines, accept) == ReadLines(st, lines[..n], accept)
  {
    if n < |lines| {
      assert lines[..|lines| - 1][..n] == lines[..n];
      ErrorStays(st, lines[..|lines| - 1], n, accept);
    } else {
      assert lines[..n] == lines;
    }
  }

  lemma {:induction false} BrokenLineFails<T>(st: Loaded<T>, lines: seq<Line<T>>, i: nat, accept: (Loaded<T>, T) -> Loaded<T>)
    requires i < |lines| && lines[i].Broken?
    ensures ReadLines(st, lines, accept).error.Some?
  {
    if i < |lines| - 1 {
      BrokenLineFails(st, lines[..|lines| - 1], i, accept);
    }
  }

  /** The records among some lines, in order. */
  function Values<T>(lines: seq<Line<T>>): seq<T> {
    if lines == [] then []
    else
      var last := lines[|lines| - 1];
      Values(lines[..|lines| - 1]) + if last.Record? then [last.value] else []
  }

  lemma ValuesSnoc<T>(lines: seq<Line<T>>, line: Line<T>)
    ensures Values(lines + [line]) == if line.Record? then Values(lines) + [line.value] else Values(lines)
  {
    assert (lines + [line])[..|lines|] == lines;
  }

  predicate NoneBroken<T(==)>(lines: seq<Line<T>>) {
    forall line <- lines :: !line.Broken?
  }

  lemma BrokenSnoc<T>(lines: seq<Line<T>>, line: Line<T>)
    ensures NoneBroken(lines + [line]) <==> NoneBroken(lines) && !line.Broken?
  {
    var all := lines + [line];
    assert all[|lines|] == line;
    assert forall x <- lines :: x in all;
  }

  /** The loop of both stores' load: it stops at the first error, with what was read so far. */
  method ReadThrough<T>(start: Loaded<T>, file: Log<T>, accept: (Loaded<T>, T) -> Loaded<T>) returns (st: Loaded<T>)
    requires start.error.None?
    ensures st == ReadFile(start, file, accept)
  {
    hide ReadLines;
    var lines := file.lines;
    ReadNone(start, lines, accept);
    st := start;
    for i := 0 to |lines|
      invariant st == ReadLines(start, lines[..i], accept) && st.error.None?
    {
      ReadStep(start, lines, i, accept);
      st := ReadLine(st, lines[i], false, accept);
      if st.error.Some? {
        ErrorStays(start, lines, i + 1, accept);
        return;
      }
    }
    assert lines[..|lines|] == lines;
    st := ReadLine(st, file.tail, true, accept);
  }

  /** The chain rule both stores share; `head` is the digest the next pointer must carry. */
  function Admit<T>(st: Loaded<T>, value: T, chain: Option<Digest>, head: Option<Digest>): Loaded<T> {
    if chain.Some? then
      if st.status == Some(Legacy) then st.(error := Some(MixedChain))
      else if head.Some? && chain != head then st.(status := Some(Chained), error := Some(ChainBreak))
      else if head.None? && chain != Some(Genesis) then st.(status := Some(Chained), error := Some(MissingGenesis))
      else Loaded(st.records + [value], Some(Chained), None)
    else if st.status == Some(Chained) then st.(error := Some(MixedChain))
    else Loaded(st.records + [value], Some(Legacy), None)
  }
}
