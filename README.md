# gutenberg-pos in Dafny

This project models the two sequential components of gutenberg-pos, a tool that
reads the Project Gutenberg catalogue and writes part-of-speech annotated TEI.

* **The annotation-to-markup serializer** (`Pipeline.writeText` and
  `Pipeline.writeAnnotated`). The XML stream writer is an append-only list of
  events (`StartElement`, `Attribute`, `EndElement`, `Chars`, `EmptyLb`) held by
  the class `Markup.XmlWriter`. The annotator's output is passed in as data: a
  sequence of sentences, each a sequence of tokens `(begin, end, lemma, pos, ner)`.
  `Pipeline.WriteText` and `Pipeline.WriteAnnotated` are the Java loops,
  written as methods that take the writer, as the Java methods do. Each is proved to append exactly what the
  pure functions `Pipeline.TextEvents` and `Pipeline.AnnotatedEvents` describe.
  The laws in `PipelineLaws` are proved about those functions: the text round
  trip, canonical form, one `lb` per newline, well-nesting, the element
  skeleton, the element counts, and exactly when the run completes.
  Java's `substring` throws on bad spans. Here that shows up as `ok == false`,
  and the writer keeps the events written before the failure.
* **The read-once catalogue cursor** (`Catalogue.iterator`, its `hasNext`/`next`,
  and `Catalogue.close`).
  * The bzip2-compressed tar archive is a forward-only sequence of entries plus
    what lies after the last entry: a proper end, or a truncation that raises an
    I/O error.
  * The RDF parser is a function parameter that returns a graph, a graph with
    warnings, or throws after reading part of the entry. Errors that the
    parser's error handler only reports, without throwing, count as a
    returned graph.
  * The classes keep the Java fields: `Catalogue.stream`, the iterator's cached
    `nextEntry`, and the tar reader's position.
  * `HasNext` and `Next` are proved against the pure functions `Probe` and
    `Take`. `Drain`, a pure client alternating the two, carries the lemmas
    about reading a whole archive.

Files: `wrappers.dfy` (Option, Result), `markup.dfy` (events, writer, text,
depth and skeleton of an event list), `pipeline.dfy` (the serializer),
`pipeline_laws.dfy` (its laws), `catalogue.dfy` (the cursor).

## Model

| member | source | states |
|---|---|---|
| Pipeline.IndexOf | src/main/java/net/middell/nlp/Pipeline.java:85 | `indexOf('\n', offset)`: -1 when no newline follows `offset`; otherwise the first newline at or after `offset` |
| Pipeline.Substring | src/main/java/net/middell/nlp/Pipeline.java:61 | `substring(b, e)` succeeds exactly when `0 <= b <= e <= length`, and then holds the `e - b` characters starting at `b`; otherwise it throws (None), as at lines 61, 70, 87 and 93 |
| Pipeline.WriteText | src/main/java/net/middell/nlp/Pipeline.java:80-97 | the loop appends exactly `TextEvents(text)` to the writer; it terminates because `offset` strictly increases |
| PipelineLaws.TextEventsRoundTrip | src/main/java/net/middell/nlp/Pipeline.java:80-97 | the emitted runs, with each `lb` read as a newline, give back the input exactly |
| PipelineLaws.TextEventsCanonical | src/main/java/net/middell/nlp/Pipeline.java:84-95 | every emitted run is non-empty and free of newlines, and no two runs are adjacent |
| PipelineLaws.TextEventsUnique | src/main/java/net/middell/nlp/Pipeline.java:80-97 | any canonical event list that reads back as `s` is `TextEvents(s)`: the splitting is the only one possible |
| PipelineLaws.LineBreaksMatchNewlines | src/main/java/net/middell/nlp/Pipeline.java:84-91 | exactly one `lb` is emitted per newline of the input |
| PipelineLaws.TextEventsFacts | src/main/java/net/middell/nlp/Pipeline.java:80-97 | the output of writeText opens no element, has no empty run, is flat (depth 0) and reads back as the input |
| Pipeline.WriteToken | src/main/java/net/middell/nlp/Pipeline.java:59-71 | one pass of the inner loop appends the gap text, the lazily opened `s`, and the `w` start with attributes `lemma`, `type`, `function`, then the token text and the `w` end. It fails exactly where `substring` throws |
| Pipeline.WriteAnnotated | src/main/java/net/middell/nlp/Pipeline.java:54-78 | the nested loops append exactly `AnnotatedEvents(text, sentences)`, and `ok` reports whether no `substring` threw |
| Pipeline.TokensFailureSticks | src/main/java/net/middell/nlp/Pipeline.java:59-72 | once a token's substring fails, extending the sentence changes nothing (the exception ends the method) |
| Pipeline.SentencesFailureSticks | src/main/java/net/middell/nlp/Pipeline.java:57-76 | once a sentence fails, later sentences add nothing |
| PipelineLaws.AnnotatedOkIff | src/main/java/net/middell/nlp/Pipeline.java:55-77 | the run completes exactly when every token span, checked against the offset carried across sentences, satisfies `offset <= begin <= end <= \|text\|` |
| PipelineLaws.AnnotatedOkIffInOrder | src/main/java/net/middell/nlp/Pipeline.java:55-77 | the run completes exactly when all spans lie inside the text, are ordered and do not overlap; an out-of-order span makes it fail |
| PipelineLaws.ChainedBounds | src/main/java/net/middell/nlp/Pipeline.java:60-70 | with chained spans, the offset stays within the text and never decreases |
| PipelineLaws.SentenceLayout | src/main/java/net/middell/nlp/Pipeline.java:58-75 | a sentence without tokens writes nothing. Otherwise the gap before its first token stays outside `s`, and `s` holds one `w` per token with the text between tokens inside `s` |
| PipelineLaws.AnnotatedWellNested | src/main/java/net/middell/nlp/Pipeline.java:56-77 | a completed run is one `ab` element that stays open everywhere inside it, and every start has a matching end |
| PipelineLaws.AnnotatedElements | src/main/java/net/middell/nlp/Pipeline.java:56-77 | the element skeleton is `ab` around one `s` per non-empty sentence. Each `s` holds one `w` per token, in order, and each `w` carries the token's lemma, POS and NER tags as `lemma`, `type`, `function` |
| PipelineLaws.AnnotatedCounts | src/main/java/net/middell/nlp/Pipeline.java:56-77 | a completed run has one `w` per token, one `s` per sentence with tokens, and a single `ab` |
| PipelineLaws.AnnotatedText | src/main/java/net/middell/nlp/Pipeline.java:55-77 | the text of a completed run is the input up to the end of the last token. It equals the whole input exactly when the last token ends the text, so trailing text is dropped |
| PipelineLaws.AnnotatedNoEmptyRuns | src/main/java/net/middell/nlp/Pipeline.java:54-97 | no empty character run is ever written, whether or not the run completes |
| PipelineLaws.TwoSentenceExample | src/main/java/net/middell/nlp/Pipeline.java:54-78 | on "Hi.\nBye." as two two-token sentences: `ab` around the two `s` elements, offset 8 at the end, and the run completes |
| PipelineLaws.ExampleSecond | src/main/java/net/middell/nlp/Pipeline.java:59-75 | the newline between the sentences becomes an `lb` written before the second `s` opens |
| Catalogue.Decode | src/main/java/net/middell/gutenberg/Catalogue.java:104-116 | the parser's warnings are dropped and its graph kept; only a parser exception makes the parse fail (next also fails on a closed stream, see `Catalogue.TakeEffect`) |
| Catalogue.ProbeUsesCache | src/main/java/net/middell/gutenberg/Catalogue.java:90-93 | with a header cached, hasNext answers true and reads nothing |
| Catalogue.ProbeAnswers | src/main/java/net/middell/gutenberg/Catalogue.java:88-96 | hasNext answers true exactly when a header is cached afterwards, and false only at a proper end of the archive. A closed stream or a truncated archive is an error and leaves the cursor unchanged |
| Catalogue.ProbeIdempotent | src/main/java/net/middell/gutenberg/Catalogue.java:90-93 | a second hasNext without next gives the same answer and the same cursor |
| Catalogue.TakeEffect | src/main/java/net/middell/gutenberg/Catalogue.java:100-119 | next never advances the archive. It succeeds exactly when the stream is open and the parser does not throw; it then has read the entry to its end and clears the cached header. A parser exception escapes before the header is cleared, and the bytes the parser had not read stay in the entry |
| Catalogue.RetryAfterRejection | src/main/java/net/middell/gutenberg/Catalogue.java:90-119 | after a parser exception, the next hasNext answers true from the cache without reading a header, and the next next parses the bytes the failed parse left unread |
| Catalogue.Consumed | src/main/java/net/middell/gutenberg/Catalogue.java:110-116 | a parse that returns has read all available bytes; one that throws has read at most what it was given |
| Catalogue.DrainReadsEveryEntry | src/main/java/net/middell/gutenberg/Catalogue.java:85-120 | alternating hasNext and next over N entries that all parse yields exactly N graphs, one per entry in order. Afterwards hasNext is false and the cursor is at the end with nothing cached |
| Catalogue.ExhaustedNext | src/main/java/net/middell/gutenberg/Catalogue.java:100-119 | next on an exhausted cursor is not refused: it hands the parser empty input, returns the parser's graph or fails with its error, and leaves the cursor at the end |
| Catalogue.DrainTruncatedFails | src/main/java/net/middell/gutenberg/Catalogue.java:88-96 | an archive that breaks off after its entries ends the client loop with an I/O error, not with false |
| Catalogue.TarReader.GetNextEntry | src/main/java/net/middell/gutenberg/Catalogue.java:91 | the forward-only reader answers the next header, or none at the end. It advances by exactly one header, and fails on a closed stream or a truncated archive |
| Catalogue.EntryView.Read | src/main/java/net/middell/gutenberg/Catalogue.java:110-116 | reading up to `n` bytes through the per-entry stream yields the next bytes of the current entry and consumes exactly those, never past the entry's end or onto another header; on a closed stream it fails |
| Catalogue.EntryView.Close | src/main/java/net/middell/gutenberg/Catalogue.java:110-116 | closing the per-entry stream leaves the shared stream open and its close count unchanged |
| Catalogue.CatalogueIterator.HasNext | src/main/java/net/middell/gutenberg/Catalogue.java:88-97 | the new cursor and the answer are `Probe` of the old cursor |
| Catalogue.CatalogueIterator.Next | src/main/java/net/middell/gutenberg/Catalogue.java:100-120 | the new cursor and the result are `Take` of the old cursor; the shared stream is neither closed nor counted |
| Catalogue.Catalogue.Iterator | src/main/java/net/middell/gutenberg/Catalogue.java:77-125 | an unreachable source fails and leaves `stream` as it was. A non-bzip2 source fails after `stream` has been replaced by a freshly opened stream. Otherwise it returns a fresh cursor at the start of the archive. A previously held stream is dropped unclosed |
| Catalogue.Catalogue.Close | src/main/java/net/middell/gutenberg/Catalogue.java:127-133 | with no stream held, as before `iterator()`, nothing happens. Otherwise the stream's close is called once; when it succeeds the stream is forgotten, and when it throws the error escapes and the stream stays held |
| Catalogue.CloseTwice | src/main/java/net/middell/gutenberg/Catalogue.java:127-133 | when the first close succeeds, two closes in a row close the held stream exactly once and the second does nothing. When the first throws, the stream is still held and the second call closes it again |

## Left out

- `Pipeline()` and `annotate` (Stanford CoreNLP): a foreign library. Its sentences and tokens are an input parameter of `WriteAnnotated`.
- XML escaping, the TEI namespace and the writer's own errors belong to `XMLStreamWriter`, which is foreign. Element names are recorded without a namespace.
- Java strings are UTF-16 `char` arrays, and the annotator's offsets count UTF-16 units. Dafny's `char` is a Unicode scalar value, so `seq<char>` has the same offsets only for text whose characters all lie in the Basic Multilingual Plane. The model covers such text; text with surrogate pairs is not modelled.
- Null tag values from the annotator are not modelled; the tags are plain strings.
- bzip2 decompression, tar header parsing and the Jena RDF reader are foreign libraries. The archive is a sequence of entries plus a trailer, and the parser is a function parameter. The model does not capture skipping within a compressed block or partial header reads.
- Catalogue.TarReader.GetNextEntry: a failing header read leaves the reader where it was; what the real tar reader has consumed by then is not modelled. Every read after the raw stream is closed is modelled as failing, in `Header` and in `Take`. The real reader answers from its buffers or from its end-of-archive flag where it can: once it has reached the end it answers no entry without reading, so `hasNext` after a full drain and `close()` is false in Java and an error here.
- Catalogue.CatalogueIterator.Next: `next` without a current entry hands the parser the empty input. A real tar reader may instead refuse to read with no current entry. The Java code itself has no guard, and the model adds none.
- The parser's incremental reads are not modelled one by one. It is handed all the bytes left in the entry, and its outcome says how many it read; exactly that many are then read from the tar reader.
- `Catalogue.cached` and the two URL constructors: network download and file copying.
- `Samples.java` (file caching, JSON, TEI output plumbing, logging, a thread pool) and `PgTerms.java` (RDF constants only) are not part of this model.
- `Text.java` (the TEI header and the namespace constant) is not part of this model.
- Where an exception ends `writeAnnotated`, the model returns `ok == false`; the exception type and message are not modelled.

Where the code departs from the usual conventions, the model follows the code:

- `java.util.Iterator.next()` is documented to throw `NoSuchElementException` when there is no next element. The code has no such check: `next()` on an exhausted cursor parses whatever is left of the current entry (`Catalogue.ExhaustedNext`).
- A failed `iterator()` on a non-bzip2 source leaves the opened stream in `stream`, and a second `iterator()` drops the first stream unclosed. Only `close()` releases the most recent one.
