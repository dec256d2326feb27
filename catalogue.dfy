/**
 * The read-once catalogue cursor of Catalogue.java.
 *
 * The bzip2-compressed tar archive is modelled as the sequence of its
 * entries and what the reader finds after the last one; the RDF parser is a
 * function from an entry's bytes to an outcome. The iterator caches one
 * entry header between hasNext and next; the catalogue owns the raw stream
 * and is the only one that closes it; a record never does.
 */
module Catalogue {
  import opened Wrappers

  newtype byte = b: int | 0 <= b < 256

  datatype Entry = Entry(name: string, data: seq<byte>)

  /** What the tar reader meets after the last entry: a proper end, or an I/O error. */
  datatype Trailer = EndOfArchive | Truncated

  datatype Archive = Archive(entries: seq<Entry>, trailer: Trailer)

  /** What opening the catalogue's URL yields. */
  datatype Source = Unreachable | NotBzip2 | Bzip2Tar(archive: Archive)

  datatype IoError = CannotOpen | BadCompressedHeader | StreamClosed | TruncatedArchive | CloseFailed

  datatype Statement = Statement(subject: string, property: string, obj: string)

  type Graph = seq<Statement>

  /**
   * The parser's verdict on one entry: a graph, a graph with warnings, or an
   * exception thrown after reading the first `consumed` bytes. A parse that
   * returns has read its input to the end.
   */
  datatype ParseOutcome =
    | Parsed(graph: Graph)
    | ParsedWithWarnings(graph: Graph, warnings: seq<string>)
    | Rejected(message: string, consumed: nat)

  datatype Failure = Io(error: IoError) | Syntax(message: string)

  /** The error handler of next(): warnings are dropped, errors are passed on. */
  function Decode(outcome: ParseOutcome): (r: Result<Graph, string>)
    ensures r.Ok? <==> !outcome.Rejected?
    ensures r.Ok? ==> r.value == outcome.graph
    ensures r.Err? ==> r.error == outcome.message
  {
    match outcome
    case Parsed(g) => Ok(g)
    case ParsedWithWarnings(g, _) => Ok(g)
    case Rejected(message, _) => Err(message)
  }

  /** How many of the `available` bytes the parser has read when it returns or throws. */
  function Consumed(outcome: ParseOutcome, available: nat): (n: nat)
    ensures n <= available
    ensures !outcome.Rejected? ==> n == available
    ensures outcome.Rejected? && outcome.consumed <= available ==> n == outcome.consumed
  {
    if outcome.Rejected? && outcome.consumed < available then outcome.consumed else available
  }

  // ---------------------------------------------------------------------------
  // Specification of the cursor
  // ---------------------------------------------------------------------------

  /**
   * The state of the cursor: the number of headers the tar reader has passed,
   * the unread bytes of its current entry, and the header cached by hasNext.
   */
  datatype Cursor = Cursor(pos: nat, unread: seq<byte>, cached: Option<Entry>)

  /** What getNextEntry answers at header `pos`. */
  function Header(archive: Archive, closed: bool, pos: nat): Result<Option<Entry>, IoError>
  {
    if closed then Err(StreamClosed)
    else if pos < |archive.entries| then Ok(Some(archive.entries[pos]))
    else if archive.trailer == Truncated then Err(TruncatedArchive)
    else Ok(None)
  }

  /** hasNext: read a header only when none is cached, then report whether one is. */
  function Probe(archive: Archive, closed: bool, c: Cursor): (Result<bool, Failure>, Cursor)
  {
    if c.cached.Some? then (Ok(true), c)
    else
      match Header(archive, closed, c.pos)
      case Err(e) => (Err(Io(e)), c)
      case Ok(None) => (Ok(false), Cursor(c.pos, [], None))
      case Ok(Some(entry)) => (Ok(true), Cursor(c.pos + 1, entry.data, Some(entry)))
  }

  /**
   * next: parse the rest of the current entry, then forget the cached header.
   * When the parser throws, what it has not read stays in the entry and the
   * header stays cached.
   */
  function Take(parse: seq<byte> -> ParseOutcome, closed: bool, c: Cursor): (Result<Graph, Failure>, Cursor)
  {
    if closed then (Err(Io(StreamClosed)), c)
    else
      var outcome := parse(c.unread);
      var left := c.unread[Consumed(outcome, |c.unread|)..];
      match Decode(outcome)
      case Err(message) => (Err(Syntax(message)), Cursor(c.pos, left, c.cached))
      case Ok(g) => (Ok(g), Cursor(c.pos, left, None))
  }

  /** A cached header is answered from the cache: true, and nothing is read. */
  lemma ProbeUsesCache(archive: Archive, closed: bool, c: Cursor)
    requires c.cached.Some?
    ensures Probe(archive, closed, c) == (Ok(true), c)
  {
  }

  /**
   * hasNext answers true exactly when a header is cached afterwards, and false
   * only at a proper end of the archive; a closed stream or a truncated
   * archive is an error, never false.
   */
  lemma ProbeAnswers(archive: Archive, closed: bool, c: Cursor)
    ensures Probe(archive, closed, c).0 == Ok(true) <==> Probe(archive, closed, c).1.cached.Some?
    ensures Probe(archive, closed, c).0 == Ok(false) <==>
      c.cached.None? && !closed && c.pos >= |archive.entries| && archive.trailer == EndOfArchive
    ensures Probe(archive, closed, c).0.Err? <==>
      c.cached.None? && (closed || (c.pos >= |archive.entries| && archive.trailer == Truncated))
    ensures Probe(archive, closed, c).0.Err? ==> Probe(archive, closed, c).1 == c
  {
  }

  /** Repeating hasNext without next gives the same answer and reads nothing more. */
  lemma ProbeIdempotent(archive: Archive, closed: bool, c: Cursor)
    requires Probe(archive, closed, c).0.Ok?
    ensures Probe(archive, closed, Probe(archive, closed, c).1) == Probe(archive, closed, c)
  {
  }

  /**
   * next never advances to another header; when it succeeds it clears the
   * cache, so the following hasNext reads a new header. Warnings do not make
   * it fail; a parser error does, and leaves the header cached.
   */
  lemma TakeEffect(parse: seq<byte> -> ParseOutcome, closed: bool, c: Cursor)
    ensures Take(parse, closed, c).1.pos == c.pos
    ensures Take(parse, closed, c).0.Ok? <==> !closed && !parse(c.unread).Rejected?
    ensures Take(parse, closed, c).0.Ok? ==>
      Take(parse, closed, c).0.value == parse(c.unread).graph && Take(parse, closed, c).1.cached == None
    ensures Take(parse, closed, c).0.Ok? ==> Take(parse, closed, c).1.unread == []
    ensures !closed && parse(c.unread).Rejected? ==>
      Take(parse, closed, c).0 == Err(Syntax(parse(c.unread).message)) &&
      Take(parse, closed, c).1.cached == c.cached &&
      (parse(c.unread).consumed <= |c.unread| ==>
        Take(parse, closed, c).1.unread == c.unread[parse(c.unread).consumed..])
  {
  }

  /**
   * After the parser throws on a cached entry, the next hasNext answers true
   * from the cache without reading a header, and the next next parses the
   * bytes the failed parse left unread.
   */
  lemma RetryAfterRejection(archive: Archive, parse: seq<byte> -> ParseOutcome, c: Cursor)
    requires c.cached.Some? && parse(c.unread).Rejected?
    ensures Probe(archive, false, Take(parse, false, c).1) == (Ok(true), Take(parse, false, c).1)
    ensures Take(parse, false, Take(parse, false, c).1) ==
      Take(parse, false, Cursor(c.pos, c.unread[Consumed(parse(c.unread), |c.unread|)..], c.cached))
  {
  }

  /** The graphs of a run of entries every one of which parses. */
  function Graphs(parse: seq<byte> -> ParseOutcome, entries: seq<Entry>): seq<Graph>
    requires forall i :: 0 <= i < |entries| ==> !parse(entries[i].data).Rejected?
  {
    if entries == [] then [] else [parse(entries[0].data).graph] + Graphs(parse, entries[1..])
  }

  /**
   * A client that alternates hasNext and next until hasNext says false; the
   * result is the records read, or the first failure, with the final cursor.
   */
  function Drain(archive: Archive, parse: seq<byte> -> ParseOutcome, c: Cursor): (Result<seq<Graph>, Failure>, Cursor)
    decreases |archive.entries| - c.pos, c.cached.Some?
  {
    var (probed, c1) := Probe(archive, false, c);
    if probed.Err? then (Err(probed.error), c1)
    else if !probed.value then (Ok([]), c1)
    else
      var (taken, c2) := Take(parse, false, c1);
      if taken.Err? then (Err(taken.error), c2)
      else
        var (rest, c3) := Drain(archive, parse, c2);
        if rest.Err? then (rest, c3) else (Ok([taken.value] + rest.value), c3)
  }

  /**
   * Over an archive of N entries that all parse, a fresh cursor yields
   * exactly N records, one per entry in order, after which hasNext is false.
   */
  lemma {:induction false} DrainReadsEveryEntry(archive: Archive, parse: seq<byte> -> ParseOutcome, pos: nat, unread: seq<byte>)
    requires pos <= |archive.entries| && archive.trailer == EndOfArchive
    requires forall i :: 0 <= i < |archive.entries| ==> !parse(archive.entries[i].data).Rejected?
    ensures Drain(archive, parse, Cursor(pos, unread, None)).0 == Ok(Graphs(parse, archive.entries[pos..]))
    ensures Probe(archive, false, Drain(archive, parse, Cursor(pos, unread, None)).1).0 == Ok(false)
    ensures Drain(archive, parse, Cursor(pos, unread, None)).1 == Cursor(|archive.entries|, [], None)
    decreases |archive.entries| - pos
  {
    if pos < |archive.entries| {
      var entry := archive.entries[pos];
      assert !parse(entry.data).Rejected?;
      DrainReadsEveryEntry(archive, parse, pos + 1, []);
      assert archive.entries[pos..][1..] == archive.entries[pos + 1..];
    }
  }

  /**
   * next on an exhausted cursor is not refused: with nothing cached and
   * nothing left unread, it hands the parser empty input and returns
   * whatever the parser makes of it.
   */
  lemma ExhaustedNext(archive: Archive, parse: seq<byte> -> ParseOutcome)
    requires archive.trailer == EndOfArchive
    requires forall i :: 0 <= i < |archive.entries| ==> !parse(archive.entries[i].data).Rejected?
    ensures Take(parse, false, Drain(archive, parse, Cursor(0, [], None)).1) ==
      match Decode(parse([]))
      case Ok(g) => (Ok(g), Cursor(|archive.entries|, [], None))
      case Err(message) => (Err(Syntax(message)), Cursor(|archive.entries|, [], None))
  {
    DrainReadsEveryEntry(archive, parse, 0, []);
  }

  /** When the archive breaks off after its entries, draining it ends in that I/O error, not in false. */
  lemma {:induction false} DrainTruncatedFails(archive: Archive, parse: seq<byte> -> ParseOutcome, pos: nat, unread: seq<byte>)
    requires pos <= |archive.entries| && archive.trailer == Truncated
    requires forall i :: 0 <= i < |archive.entries| ==> !parse(archive.entries[i].data).Rejected?
    ensures Drain(archive, parse, Cursor(pos, unread, None)).0 == Err(Io(TruncatedArchive))
    decreases |archive.entries| - pos
  {
    if pos < |archive.entries| {
      assert !parse(archive.entries[pos].data).Rejected?;
      DrainTruncatedFails(archive, parse, pos + 1, []);
    }
  }

  // ---------------------------------------------------------------------------
  // The streams
  // ---------------------------------------------------------------------------

  /**
   * The stream opened from the catalogue's URL; it counts how often it is
   * closed. Its first `failingCloses` close calls throw and leave it open.
   */
  class RawStream {
    const failingCloses: nat
    var closed: bool
    var closeCalls: nat

    constructor(failingCloses: nat)
      ensures this.failingCloses == failingCloses && !closed && closeCalls == 0
    {
      this.failingCloses := failingCloses;
      closed := false;
      closeCalls := 0;
    }

    /** Whether the next close call succeeds. */
    predicate CloseSucceeds()
      reads this
    {
      closeCalls >= failingCloses
    }

    method Close() returns (r: Result<(), IoError>)
      modifies this
      ensures closeCalls == old(closeCalls) + 1
      ensures r.Ok? <==> old(CloseSucceeds())
      ensures r.Ok? ==> closed
      ensures r.Err? ==> r.error == CloseFailed && closed == old(closed)
    {
      if closeCalls < failingCloses {
        closeCalls := closeCalls + 1;
        return Err(CloseFailed);
      }
      closed := true;
      closeCalls := closeCalls + 1;
      return Ok(());
    }
  }

  /** The tar reader over the decompressed raw stream: a forward-only position in the archive. */
  class TarReader {
    const raw: RawStream
    const archive: Archive
    var pos: nat
    var unread: seq<byte>

    constructor(raw: RawStream, archive: Archive)
      ensures this.raw == raw && this.archive == archive && pos == 0 && unread == []
    {
      this.raw := raw;
      this.archive := archive;
      pos := 0;
      unread := [];
    }

    /** Skip what is left of the current entry and read the next header. */
    method GetNextEntry() returns (r: Result<Option<Entry>, IoError>)
      modifies this
      ensures r == Header(archive, raw.closed, old(pos))
      ensures r.Ok? && r.value.Some? ==> pos == old(pos) + 1 && unread == r.value.value.data
      ensures r.Ok? && r.value.None? ==> pos == old(pos) && unread == []
      ensures r.Err? ==> pos == old(pos) && unread == old(unread)
    {
      if raw.closed {
        return Err(StreamClosed);
      }
      if pos < |archive.entries| {
        var entry := archive.entries[pos];
        pos := pos + 1;
        unread := entry.data;
        return Ok(Some(entry));
      }
      if archive.trailer == Truncated {
        return Err(TruncatedArchive);
      }
      unread := [];
      return Ok(None);
    }

    /** What is left of the current entry, without reading it. */
    method Available() returns (r: Result<seq<byte>, IoError>)
      ensures r == if raw.closed then Err(StreamClosed) else Ok(unread)
    {
      if raw.closed {
        return Err(StreamClosed);
      }
      return Ok(unread);
    }

    /** Read up to `n` bytes of the current entry; never past its end. */
    method Read(n: nat) returns (r: Result<seq<byte>, IoError>)
      modifies this
      ensures raw.closed ==> r == Err(StreamClosed) && unread == old(unread)
      ensures !raw.closed && n <= |old(unread)| ==> r == Ok(old(unread)[..n]) && unread == old(unread)[n..]
      ensures !raw.closed && n > |old(unread)| ==> r == Ok(old(unread)) && unread == []
      ensures pos == old(pos)
    {
      if raw.closed {
        return Err(StreamClosed);
      }
      if n <= |unread| {
        r := Ok(unread[..n]);
        unread := unread[n..];
      } else {
        r := Ok(unread);
        unread := [];
      }
    }
  }

  /** The per-entry stream handed to the parser: reads from the tar reader, and its close does nothing. */
  class EntryView {
    const tar: TarReader

    constructor(tar: TarReader)
      ensures this.tar == tar
    {
      this.tar := tar;
    }

    method Available() returns (r: Result<seq<byte>, IoError>)
      ensures r == if tar.raw.closed then Err(StreamClosed) else Ok(tar.unread)
    {
      r := tar.Available();
    }

    /** Read through to the tar reader: up to `n` bytes of the current entry. */
    method Read(n: nat) returns (r: Result<seq<byte>, IoError>)
      modifies tar
      ensures tar.raw.closed ==> r == Err(StreamClosed) && tar.unread == old(tar.unread)
      ensures !tar.raw.closed && n <= |old(tar.unread)| ==>
        r == Ok(old(tar.unread)[..n]) && tar.unread == old(tar.unread)[n..]
      ensures !tar.raw.closed && n > |old(tar.unread)| ==> r == Ok(old(tar.unread)) && tar.unread == []
      ensures tar.pos == old(tar.pos)
    {
      r := tar.Read(n);
    }

    /** Closing the view leaves the shared stream open and uncounted. */
    method Close()
      ensures tar.raw.closed == old(tar.raw.closed) && tar.raw.closeCalls == old(tar.raw.closeCalls)
    {
    }
  }

  // ---------------------------------------------------------------------------
  // The iterator and the catalogue
  // ---------------------------------------------------------------------------

  class CatalogueIterator {
    const tar: TarReader
    const parse: seq<byte> -> ParseOutcome
    var nextEntry: Option<Entry>

    function State(): Cursor
      reads this, tar
    {
      Cursor(tar.pos, tar.unread, nextEntry)
    }

    constructor(tar: TarReader, parse: seq<byte> -> ParseOutcome)
      ensures this.tar == tar && this.parse == parse && nextEntry == None
    {
      this.tar := tar;
      this.parse := parse;
      nextEntry := None;
    }

    method HasNext() returns (r: Result<bool, Failure>)
      modifies this, tar
      ensures (r, State()) == Probe(tar.archive, tar.raw.closed, old(State()))
    {
      if nextEntry.None? {
        var header := tar.GetNextEntry();
        if header.Err? {
          return Err(Io(header.error));
        }
        nextEntry := header.value;
      }
      return Ok(nextEntry.Some?);
    }

    method Next() returns (r: Result<Graph, Failure>)
      modifies this, tar
      ensures (r, State()) == Take(parse, tar.raw.closed, old(State()))
      ensures tar.raw.closed == old(tar.raw.closed) && tar.raw.closeCalls == old(tar.raw.closeCalls)
    {
      var view := new EntryView(tar);
      var bytes := view.Available();
      if bytes.Err? {
        return Err(Io(bytes.error));
      }
      var outcome := parse(bytes.value);
      var read := view.Read(Consumed(outcome, |bytes.value|));
      view.Close();
      match Decode(outcome)
      case Err(message) =>
        return Err(Syntax(message));
      case Ok(g) =>
        nextEntry := None;
        return Ok(g);
    }
  }

  class Catalogue {
    const source: Source
    const parse: seq<byte> -> ParseOutcome
    /** How many close calls on each opened stream throw before one succeeds. */
    const failingCloses: nat
    var stream: RawStream?

    constructor(source: Source, parse: seq<byte> -> ParseOutcome, failingCloses: nat)
      ensures this.source == source && this.parse == parse && this.failingCloses == failingCloses
      ensures stream == null
    {
      this.source := source;
      this.parse := parse;
      this.failingCloses := failingCloses;
      stream := null;
    }

    /**
     * Open the source and wrap it. An unreachable source fails and leaves
     * `stream` as it was; a source that is not bzip2 fails after `stream` has
     * been replaced by the newly opened stream. A stream held from an earlier
     * call is dropped without being closed.
     */
    method Iterator() returns (r: Result<CatalogueIterator, Failure>)
      modifies this
      ensures source.Unreachable? ==> r == Err(Io(CannotOpen)) && stream == old(stream)
      ensures source.NotBzip2? ==>
        r == Err(Io(BadCompressedHeader)) && stream != null && fresh(stream) && !stream.closed &&
        stream.closeCalls == 0 && stream.failingCloses == failingCloses
      ensures source.Bzip2Tar? ==>
        r.Ok? && stream != null && fresh(stream) && !stream.closed && stream.closeCalls == 0 &&
        stream.failingCloses == failingCloses &&
        fresh(r.value) && fresh(r.value.tar) && r.value.tar.raw == stream && r.value.tar.archive == source.archive &&
        r.value.State() == Cursor(0, [], None) && r.value.parse == parse
      ensures old(stream) != null ==>
        old(stream).closed == old(stream.closed) && old(stream).closeCalls == old(stream.closeCalls)
    {
      if source.Unreachable? {
        return Err(Io(CannotOpen));
      }
      stream := new RawStream(failingCloses);
      if source.NotBzip2? {
        return Err(Io(BadCompressedHeader));
      }
      var tar := new TarReader(stream, source.archive);
      var it := new CatalogueIterator(tar, parse);
      return Ok(it);
    }

    /**
     * Close the held stream, if any, and forget it; with none held this does
     * nothing. When the stream's close throws, the error escapes and the
     * stream stays held.
     */
    method Close() returns (r: Result<(), IoError>)
      modifies this, stream
      ensures old(stream) == null ==> r.Ok? && stream == null
      ensures old(stream) != null ==> old(stream).closeCalls == old(stream.closeCalls) + 1
      ensures old(stream) != null ==> (r.Ok? <==> old(stream.CloseSucceeds()))
      ensures r.Ok? ==> stream == null
      ensures old(stream) != null && r.Ok? ==> old(stream).closed
      ensures r.Err? ==> r.error == CloseFailed && stream == old(stream) && stream.closed == old(stream.closed)
    {
      if stream != null {
        var closing := stream.Close();
        if closing.Err? {
          return closing;
        }
        stream := null;
      }
      return Ok(());
    }
  }

  /**
   * Two closes in a row. When the first succeeds, the held stream is closed
   * exactly once and the second call does nothing. When the first throws,
   * the stream is still held and the second call tries to close it again.
   */
  method CloseTwice(catalogue: Catalogue) returns (first: Result<(), IoError>, second: Result<(), IoError>)
    modifies catalogue, catalogue.stream
    ensures old(catalogue.stream) == null ==> first.Ok? && second.Ok? && catalogue.stream == null
    ensures old(catalogue.stream) != null && old(catalogue.stream.CloseSucceeds()) ==>
      first.Ok? && second.Ok? && catalogue.stream == null && old(catalogue.stream).closed &&
      old(catalogue.stream).closeCalls == old(catalogue.stream.closeCalls) + 1
    ensures old(catalogue.stream) != null && !old(catalogue.stream.CloseSucceeds()) ==>
      first == Err(CloseFailed) && old(catalogue.stream).closeCalls == old(catalogue.stream.closeCalls) + 2 &&
      (second.Ok? <==> old(catalogue.stream.closeCalls) + 1 >= old(catalogue.stream).failingCloses) &&
      (second.Ok? ==> catalogue.stream == null && old(catalogue.stream).closed) &&
      (second.Err? ==> catalogue.stream == old(catalogue.stream))
  {
    first := catalogue.Close();
    second := catalogue.Close();
  }
}
