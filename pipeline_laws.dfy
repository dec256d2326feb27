/**
 * The laws of the serializer, stated over the specification functions that
 * WriteText and WriteAnnotated are proved to follow.
 *
 * writeText: its output is the unique canonical event form of its input
 * (non-empty newline-free runs and one `lb` per newline, never two runs in a
 * row) and reads back as the input exactly.
 *
 * writeAnnotated: it completes exactly when the token spans are in bounds and
 * in order; it then writes the text up to the end of the last token, inside a
 * single `ab` element, with one `s` per non-empty sentence and one `w` per
 * token carrying the token's tags.
 */
module PipelineLaws {
  import opened Markup
  import opened Pipeline

  // ---------------------------------------------------------------------------
  // writeText
  // ---------------------------------------------------------------------------

  /** An event writeText may emit: a line break, or a non-empty run without newline. */
  predicate IsLinePiece(e: Event)
  {
    e == EmptyLb || (e.Chars? && e.run != [] && '\n' !in e.run)
  }

  /** Line pieces only, and never two runs next to each other. */
  ghost predicate Canonical(es: seq<Event>)
  {
    (forall i :: 0 <= i < |es| ==> IsLinePiece(es[i])) &&
    (forall i :: 0 < i < |es| ==> !(es[i - 1].Chars? && es[i].Chars?))
  }

  function NewlineCount(s: string): nat
  {
    if s == [] then 0 else (if s[0] == '\n' then 1 else 0) + NewlineCount(s[1..])
  }

  /** LineEnd is determined by the first newline. */
  lemma {:induction false} LineEndAt(s: string, k: nat)
    requires k <= |s|
    requires forall i :: 0 <= i < k ==> s[i] != '\n'
    requires k < |s| ==> s[k] == '\n'
    ensures LineEnd(s) == k
  {
    if k > 0 {
      LineEndAt(s[1..], k - 1);
    }
  }

  lemma CanonicalConcat(a: seq<Event>, b: seq<Event>)
    requires Canonical(a) && Canonical(b)
    requires a == [] || !a[|a| - 1].Chars?
    ensures Canonical(a + b)
  {
    var ab := a + b;
    forall i | 0 <= i < |ab|
      ensures IsLinePiece(ab[i])
    {
      if i >= |a| {
        assert ab[i] == b[i - |a|];
      }
    }
    forall i | 0 < i < |ab|
      ensures !(ab[i - 1].Chars? && ab[i].Chars?)
    {
      if i > |a| {
        assert ab[i - 1] == b[i - 1 - |a|] && ab[i] == b[i - |a|];
      }
    }
  }

  /** writeText's output is in canonical form. */
  lemma {:induction false} TextEventsCanonical(s: string)
    ensures Canonical(TextEvents(s))
    decreases |s|
  {
    if s != [] {
      var k := LineEnd(s);
      LineEndIsFirstNewline(s);
      if k < |s| {
        TextEventsCanonical(s[k + 1..]);
        var run: seq<Event> := if k > 0 then [Chars(s[..k])] else [];
        if k > 0 {
          assert forall i :: 0 <= i < k ==> s[..k][i] != '\n';
        }
        CanonicalConcat(run + [EmptyLb], TextEvents(s[k + 1..]));
      } else {
        assert forall i :: 0 <= i < |s| ==> s[i] != '\n';
      }
    }
  }

  lemma SplitAround(s: string, k: nat)
    requires k < |s|
    ensures s == s[..k] + [s[k]] + s[k + 1..]
  {
  }

  /** One step of TextEvents: the text up to the first newline, an `lb`, then the rest. */
  lemma TextEventsSplit(s: string)
    requires s != [] && LineEnd(s) < |s|
    ensures TextEvents(s) ==
      (if LineEnd(s) > 0 then [Chars(s[..LineEnd(s)])] else []) + [EmptyLb] + TextEvents(s[LineEnd(s) + 1..])
  {
  }

  /** Round trip: the runs, with each `lb` read as a newline, give back the input. */
  lemma {:induction false} TextEventsRoundTrip(s: string)
    ensures TextOf(TextEvents(s)) == s
    decreases |s|
  {
    if s != [] {
      var k := LineEnd(s);
      if k < |s| {
        var rest := s[k + 1..];
        var run: seq<Event> := if k > 0 then [Chars(s[..k])] else [];
        TextEventsRoundTrip(rest);
        TextEventsSplit(s);
        TextOfAppend(run + [EmptyLb], TextEvents(rest));
        TextOfAppend(run, [EmptyLb]);
        assert TextOf(run) == s[..k];
        LineEndIsFirstNewline(s);
        SplitAround(s, k);
      } else {
        assert TextEvents(s) == [Chars(s)];
      }
    }
  }

  lemma CanonicalDrop(es: seq<Event>, n: nat)
    requires Canonical(es) && n <= |es|
    ensures Canonical(es[n..])
  {
    assert forall i :: 0 <= i < |es| - n ==> es[n..][i] == es[n + i];
  }

  /** A stream opening with an `lb` is TextEvents of its text when its tail is. */
  lemma UniqueBreakStep(s: string, es: seq<Event>)
    requires es != [] && es[0] == EmptyLb && TextOf(es) == s
    requires es[1..] == TextEvents(s[1..])
    ensures es == TextEvents(s)
  {
    LineEndAt(s, 0);
    TextEventsSplit(s);
  }

  lemma TextOfRunBreak(es: seq<Event>)
    requires |es| >= 2 && es[0].Chars? && es[1] == EmptyLb
    ensures TextOf(es) == es[0].run + "\n" + TextOf(es[2..])
  {
    var tail := es[1..];
    assert tail[0] == EmptyLb && tail[1..] == es[2..];
    assert TextOf(tail) == "\n" + TextOf(es[2..]);
    assert TextOf(es) == es[0].run + TextOf(tail);
  }

  lemma LineParts(s: string, t: string, rest: string)
    requires s == t + "\n" + rest
    ensures |t| < |s| && s[..|t|] == t && s[|t|] == '\n' && s[|t| + 1..] == rest
  {
  }

  /** A stream opening with a run and an `lb` is TextEvents of its text when its tail is. */
  lemma UniqueRunStep(s: string, es: seq<Event>)
    requires |es| >= 2 && IsLinePiece(es[0]) && es[0].Chars? && es[1] == EmptyLb
    requires TextOf(es) == s
    ensures |es[0].run| < |s| && s[|es[0].run| + 1..] == TextOf(es[2..])
    ensures es[2..] == TextEvents(s[|es[0].run| + 1..]) ==> es == TextEvents(s)
  {
    var t := es[0].run;
    var rest := TextOf(es[2..]);
    TextOfRunBreak(es);
    LineParts(s, t, rest);
    LineEndAt(s, |t|);
    if es[2..] == TextEvents(rest) {
      TextEventsSplit(s);
      assert es == [es[0], es[1]] + es[2..];
    }
  }

  /** Canonical form is unique: any canonical stream reading back as `s` is TextEvents(s). */
  lemma {:induction false} TextEventsUnique(s: string, es: seq<Event>)
    requires Canonical(es) && TextOf(es) == s
    ensures es == TextEvents(s)
    decreases |es|
  {
    if es == [] {
    } else if es[0] == EmptyLb {
      CanonicalDrop(es, 1);
      TextEventsUnique(s[1..], es[1..]);
      UniqueBreakStep(s, es);
    } else if |es| == 1 {
      assert IsLinePiece(es[0]);
      assert TextOf(es) == es[0].run + TextOf([]);
      assert es[0] == Chars(s);
      LineEndAt(s, |s|);
      assert s != [] && TextEvents(s) == [Chars(s)];
      assert es == [es[0]];
    } else {
      assert IsLinePiece(es[0]) && IsLinePiece(es[1]);
      UniqueRunStep(s, es);
      CanonicalDrop(es, 2);
      TextEventsUnique(s[|es[0].run| + 1..], es[2..]);
    }
  }

  lemma {:induction false} NewlineCountAppend(a: string, b: string)
    ensures NewlineCount(a + b) == NewlineCount(a) + NewlineCount(b)
  {
    if a != [] {
      assert (a + b)[1..] == a[1..] + b;
      NewlineCountAppend(a[1..], b);
    } else {
      assert a + b == b;
    }
  }

  lemma {:induction false} NoNewlineCount(s: string)
    requires '\n' !in s
    ensures NewlineCount(s) == 0
  {
    if s != [] {
      NoNewlineCount(s[1..]);
    }
  }

  lemma {:induction false} LineBreaksAreNewlines(es: seq<Event>)
    requires forall i :: 0 <= i < |es| ==> IsLinePiece(es[i])
    ensures Occurrences(es, EmptyLb) == NewlineCount(TextOf(es))
  {
    if es != [] {
      assert IsLinePiece(es[0]);
      LineBreaksAreNewlines(es[1..]);
      NewlineCountAppend(EventText(es[0]), TextOf(es[1..]));
      if es[0].Chars? {
        NoNewlineCount(es[0].run);
      }
    }
  }

  /** One `lb` per newline of the input. */
  lemma LineBreaksMatchNewlines(s: string)
    ensures Occurrences(TextEvents(s), EmptyLb) == NewlineCount(s)
  {
    TextEventsCanonical(s);
    TextEventsRoundTrip(s);
    LineBreaksAreNewlines(TextEvents(s));
  }

  /** Line pieces carry no element structure and no empty run. */
  lemma {:induction false} LinePiecesAreText(es: seq<Event>)
    requires forall i :: 0 <= i < |es| ==> IsLinePiece(es[i])
    ensures Flat(es) && Elements(es) == [] && NoEmptyRuns(es)
  {
    if es != [] {
      assert IsLinePiece(es[0]);
      LinePiecesAreText(es[1..]);
      assert forall i :: 1 <= i < |es| ==> es[i] == es[1..][i - 1];
    }
  }

  /** What the serializer relies on about writeText's output. */
  lemma TextEventsFacts(s: string)
    ensures Flat(TextEvents(s)) && Elements(TextEvents(s)) == [] && NoEmptyRuns(TextEvents(s))
    ensures TextOf(TextEvents(s)) == s
  {
    TextEventsCanonical(s);
    LinePiecesAreText(TextEvents(s));
    TextEventsRoundTrip(s);
  }

  // ---------------------------------------------------------------------------
  // writeAnnotated: which inputs complete
  // ---------------------------------------------------------------------------

  /** All tokens of all sentences, in order. */
  function Flatten(sentences: seq<Sentence>): seq<Token>
  {
    if sentences == [] then []
    else Flatten(sentences[..|sentences| - 1]) + sentences[|sentences| - 1]
  }

  /** The text offset after the tokens: the end of the last one, or `offset` when there are none. */
  function EndAfter(offset: int, tokens: seq<Token>): int
  {
    if tokens == [] then offset else tokens[|tokens| - 1].end
  }

  /** The text offset at which the token with index `i` is reached. */
  function Before(offset: int, tokens: seq<Token>, i: nat): int
    requires i < |tokens|
  {
    if i == 0 then offset else tokens[i - 1].end
  }

  /** Both substrings around the token exist: from `from` to its begin, and the token itself. */
  predicate SpanOk(text: string, from: int, t: Token)
  {
    0 <= from <= t.begin <= t.end <= |text|
  }

  /** Every token lies inside the text and starts no earlier than the previous one ended. */
  predicate ChainedFrom(text: string, offset: int, tokens: seq<Token>)
  {
    forall i :: 0 <= i < |tokens| ==> SpanOk(text, Before(offset, tokens, i), tokens[i])
  }

  lemma ChainedSnoc(text: string, offset: int, tokens: seq<Token>)
    requires tokens != []
    ensures ChainedFrom(text, offset, tokens) <==>
      ChainedFrom(text, offset, tokens[..|tokens| - 1]) &&
      SpanOk(text, EndAfter(offset, tokens[..|tokens| - 1]), tokens[|tokens| - 1])
  {
    var init := tokens[..|tokens| - 1];
    assert forall i :: 0 <= i < |init| ==> Before(offset, tokens, i) == Before(offset, init, i);
    assert Before(offset, tokens, |init|) == EndAfter(offset, init);
  }

  lemma ChainedAppend(text: string, offset: int, a: seq<Token>, b: seq<Token>)
    ensures ChainedFrom(text, offset, a + b) <==>
      ChainedFrom(text, offset, a) && ChainedFrom(text, EndAfter(offset, a), b)
    ensures EndAfter(offset, a + b) == EndAfter(EndAfter(offset, a), b)
  {
    var ab := a + b;
    forall i | 0 <= i < |a|
      ensures Before(offset, ab, i) == Before(offset, a, i) && ab[i] == a[i]
    {
    }
    forall j | 0 <= j < |b|
      ensures Before(offset, ab, |a| + j) == Before(EndAfter(offset, a), b, j) && ab[|a| + j] == b[j]
    {
    }
    if ChainedFrom(text, offset, ab) {
      forall j | 0 <= j < |b|
        ensures SpanOk(text, Before(EndAfter(offset, a), b, j), b[j])
      {
        assert SpanOk(text, Before(offset, ab, |a| + j), ab[|a| + j]);
      }
    }
    if ChainedFrom(text, offset, a) && ChainedFrom(text, EndAfter(offset, a), b) {
      forall i | 0 <= i < |ab|
        ensures SpanOk(text, Before(offset, ab, i), ab[i])
      {
        if i >= |a| {
          assert SpanOk(text, Before(EndAfter(offset, a), b, i - |a|), b[i - |a|]);
        }
      }
    }
    if b == [] {
      assert ab == a;
    }
  }

  /** The tokens of one sentence complete exactly when they are chained. */
  lemma {:induction false} TokensOkIff(text: string, offset: int, tokens: seq<Token>)
    ensures TokensEvents(text, offset, tokens).ok <==> ChainedFrom(text, offset, tokens)
    ensures TokensEvents(text, offset, tokens).ok ==>
      TokensEvents(text, offset, tokens).offset == EndAfter(offset, tokens)
    decreases |tokens|
  {
    if tokens != [] {
      TokensOkIff(text, offset, tokens[..|tokens| - 1]);
      ChainedSnoc(text, offset, tokens);
    }
  }

  /** The sentences complete exactly when all their tokens, taken together, are chained from 0. */
  lemma {:induction false} SentencesOkIff(text: string, sentences: seq<Sentence>)
    ensures SentencesEvents(text, sentences).ok <==> ChainedFrom(text, 0, Flatten(sentences))
    ensures SentencesEvents(text, sentences).ok ==>
      SentencesEvents(text, sentences).offset == EndAfter(0, Flatten(sentences))
    decreases |sentences|
  {
    if sentences != [] {
      var init := sentences[..|sentences| - 1];
      var last := sentences[|sentences| - 1];
      SentencesOkIff(text, init);
      ChainedAppend(text, 0, Flatten(init), last);
      TokensOkIff(text, SentencesEvents(text, init).offset, last);
    }
  }

  /**
   * writeAnnotated completes (closes `ab`) exactly when every token span is
   * inside the text and no token starts before the previous one ended; any
   * out-of-bounds or out-of-order span makes it fail.
   */
  lemma AnnotatedOkIff(text: string, sentences: seq<Sentence>)
    ensures AnnotatedEvents(text, sentences).ok <==> ChainedFrom(text, 0, Flatten(sentences))
  {
    SentencesOkIff(text, sentences);
  }

  /** Every span is inside the text, and each token begins at or after the end of the one before it. */
  predicate SpansInOrder(text: string, tokens: seq<Token>)
  {
    (forall i :: 0 <= i < |tokens| ==> 0 <= tokens[i].begin <= tokens[i].end <= |text|) &&
    (forall i :: 0 < i < |tokens| ==> tokens[i - 1].end <= tokens[i].begin)
  }

  lemma ChainedIffInOrder(text: string, offset: int, tokens: seq<Token>)
    requires tokens != []
    ensures ChainedFrom(text, offset, tokens) <==>
      0 <= offset <= tokens[0].begin && SpansInOrder(text, tokens)
  {
    if ChainedFrom(text, offset, tokens) {
      assert SpanOk(text, Before(offset, tokens, 0), tokens[0]);
      forall i | 0 <= i < |tokens|
        ensures 0 <= tokens[i].begin <= tokens[i].end <= |text|
      {
        assert SpanOk(text, Before(offset, tokens, i), tokens[i]);
      }
      forall i | 0 < i < |tokens|
        ensures tokens[i - 1].end <= tokens[i].begin
      {
        assert SpanOk(text, Before(offset, tokens, i), tokens[i]);
      }
    }
  }

  /**
   * The same statement as AnnotatedOkIff in terms of the spans alone: the
   * run completes exactly when the spans are inside the text and in order.
   */
  lemma AnnotatedOkIffInOrder(text: string, sentences: seq<Sentence>)
    ensures AnnotatedEvents(text, sentences).ok <==> SpansInOrder(text, Flatten(sentences))
  {
    AnnotatedOkIff(text, sentences);
    if Flatten(sentences) != [] {
      ChainedIffInOrder(text, 0, Flatten(sentences));
    }
  }

  lemma {:induction false} ChainedBounds(text: string, offset: int, tokens: seq<Token>)
    requires 0 <= offset <= |text| && ChainedFrom(text, offset, tokens)
    ensures offset <= EndAfter(offset, tokens) <= |text|
    ensures tokens != [] ==> offset <= tokens[0].begin <= EndAfter(offset, tokens)
    decreases |tokens|
  {
    if tokens != [] {
      var init := tokens[..|tokens| - 1];
      ChainedSnoc(text, offset, tokens);
      ChainedBounds(text, offset, init);
      assert SpanOk(text, Before(offset, tokens, 0), tokens[0]);
      if init != [] {
        assert init[0] == tokens[0];
      }
    }
  }

  // ---------------------------------------------------------------------------
  // writeAnnotated: what a completed run writes
  // ---------------------------------------------------------------------------

  /** The `w` element of a token: start tag and attributes, the token's text, end tag. */
  function WordElement(text: string, t: Token): seq<Event>
    requires 0 <= t.begin <= t.end <= |text|
  {
    WordStart(t) + TextEvents(text[t.begin..t.end]) + [EndElement]
  }

  /**
   * Reference layout of the inside of a sentence's `s`: the `w` elements of
   * its tokens, with the text between consecutive tokens in between.
   */
  function WordsEvents(text: string, tokens: seq<Token>): seq<Event>
    requires SpansInOrder(text, tokens)
  {
    if tokens == [] then []
    else if |tokens| == 1 then WordElement(text, tokens[0])
    else
      var init := tokens[..|tokens| - 1];
      var t := tokens[|tokens| - 1];
      WordsEvents(text, init) + TextEvents(text[init[|init| - 1].end..t.begin]) + WordElement(text, t)
  }

  /** The element skeleton of one `w`: start tag, the three attributes, end tag. */
  function WordShape(t: Token): seq<Event>
  {
    WordStart(t) + [EndElement]
  }

  function WordShapes(tokens: seq<Token>): seq<Event>
  {
    if tokens == [] then [] else WordShapes(tokens[..|tokens| - 1]) + WordShape(tokens[|tokens| - 1])
  }

  /** The element skeleton of one sentence: nothing at all when it has no tokens. */
  function SentenceShape(tokens: seq<Token>): seq<Event>
  {
    if tokens == [] then [] else [StartElement("s")] + WordShapes(tokens) + [EndElement]
  }

  function SentenceShapes(sentences: seq<Sentence>): seq<Event>
  {
    if sentences == [] then []
    else SentenceShapes(sentences[..|sentences| - 1]) + SentenceShape(sentences[|sentences| - 1])
  }

  /** The element skeleton of a completed writeAnnotated. */
  function ExpectedElements(sentences: seq<Sentence>): seq<Event>
  {
    [StartElement("ab")] + SentenceShapes(sentences) + [EndElement]
  }

  function NonEmptyCount(sentences: seq<Sentence>): nat
  {
    if sentences == [] then 0
    else NonEmptyCount(sentences[..|sentences| - 1]) + (if sentences[|sentences| - 1] == [] then 0 else 1)
  }

  /** A token whose spans exist: the gap text, `s` when it opens the sentence, then its `w`. */
  lemma TokenBlock(text: string, from: int, t: Token, started: bool)
    requires SpanOk(text, from, t)
    ensures TokenEvents(text, from, t, started) ==
      Emitted(TextEvents(text[from..t.begin]) + (if started then [] else [StartElement("s")]) + WordElement(text, t),
              t.end, true)
  {
    var head := TextEvents(text[from..t.begin]) + (if started then [] else [StartElement("s")]);
    var c := TextEvents(text[t.begin..t.end]);
    AppendAssoc(head, WordStart(t) + c, [EndElement]);
    AppendAssoc(head, WordStart(t), c);
  }

  /** Regrouping one step of the token loop. */
  lemma LayoutStep(head: seq<Event>, prev: seq<Event>, g: seq<Event>, w: seq<Event>)
    ensures head + prev + (g + [] + w) == head + (prev + g + w)
  {
  }

  /** The tokens of a sentence whose spans are chained: gap text, `s` opened lazily, then the words. */
  lemma {:induction false} TokensLayout(text: string, offset: int, tokens: seq<Token>)
    requires tokens != [] && ChainedFrom(text, offset, tokens) && SpansInOrder(text, tokens)
    ensures TokensEvents(text, offset, tokens) ==
      Emitted(TextEvents(text[offset..tokens[0].begin]) + [StartElement("s")] + WordsEvents(text, tokens),
              EndAfter(offset, tokens), true)
    decreases |tokens|
  {
    ChainedSnoc(text, offset, tokens);
    var init := tokens[..|tokens| - 1];
    var t := tokens[|tokens| - 1];
    if |tokens| == 1 {
      assert init == [];
      TokenBlock(text, offset, t, false);
    } else {
      assert init[0] == tokens[0];
      assert SpansInOrder(text, init);
      TokensLayout(text, offset, init);
      var p := EndAfter(offset, init);
      TokenBlock(text, p, t, true);
      LayoutStep(TextEvents(text[offset..tokens[0].begin]) + [StartElement("s")], WordsEvents(text, init),
                 TextEvents(text[p..t.begin]), WordElement(text, t));
    }
  }

  /**
   * One sentence in a run that has not failed: with no tokens it writes
   * nothing (`s` is opened lazily); otherwise the text before its first
   * token stays outside `s`, and `s` holds the words and the text between them.
   */
  lemma SentenceLayout(text: string, offset: int, tokens: seq<Token>)
    requires ChainedFrom(text, offset, tokens)
    ensures tokens == [] ==> SentenceEvents(text, offset, tokens) == Emitted([], offset, true)
    ensures tokens != [] ==> SpansInOrder(text, tokens) && 0 <= offset <= tokens[0].begin
    ensures tokens != [] ==>
      SentenceEvents(text, offset, tokens) ==
        Emitted(TextEvents(text[offset..tokens[0].begin]) + [StartElement("s")] + WordsEvents(text, tokens) + [EndElement],
                EndAfter(offset, tokens), true)
  {
    if tokens != [] {
      TokensLayout(text, offset, tokens);
    }
  }

  /** Where the completed sentences stand before sentence `last`. */
  lemma SentencesStep(text: string, sentences: seq<Sentence>)
    requires sentences != [] && ChainedFrom(text, 0, Flatten(sentences))
    ensures ChainedFrom(text, 0, Flatten(sentences[..|sentences| - 1]))
    ensures SentencesEvents(text, sentences[..|sentences| - 1]).ok
    ensures 0 <= SentencesEvents(text, sentences[..|sentences| - 1]).offset <= |text|
    ensures SentencesEvents(text, sentences[..|sentences| - 1]).offset == EndAfter(0, Flatten(sentences[..|sentences| - 1]))
    ensures ChainedFrom(text, SentencesEvents(text, sentences[..|sentences| - 1]).offset, sentences[|sentences| - 1])
    ensures EndAfter(0, Flatten(sentences)) ==
      EndAfter(SentencesEvents(text, sentences[..|sentences| - 1]).offset, sentences[|sentences| - 1])
    ensures SentencesEvents(text, sentences).events ==
      SentencesEvents(text, sentences[..|sentences| - 1]).events +
      SentenceEvents(text, SentencesEvents(text, sentences[..|sentences| - 1]).offset, sentences[|sentences| - 1]).events
  {
    var init := sentences[..|sentences| - 1];
    var last := sentences[|sentences| - 1];
    ChainedAppend(text, 0, Flatten(init), last);
    SentencesOkIff(text, init);
    ChainedBounds(text, 0, Flatten(init));
  }

  /** The layout of a non-empty sentence, with its spans in order. */
  lemma SentenceParts(text: string, offset: int, tokens: seq<Token>)
    requires tokens != [] && ChainedFrom(text, offset, tokens)
    ensures SpansInOrder(text, tokens) && 0 <= offset <= tokens[0].begin
    ensures SentenceEvents(text, offset, tokens).events ==
      TextEvents(text[offset..tokens[0].begin]) + ([StartElement("s")] + WordsEvents(text, tokens) + [EndElement])
  {
    SentenceLayout(text, offset, tokens);
    var g := TextEvents(text[offset..tokens[0].begin]);
    var words := WordsEvents(text, tokens);
    AppendAssoc(g, [StartElement("s")] + words, [EndElement]);
    AppendAssoc(g, [StartElement("s")], words);
  }

  // -- well-nestedness ----------------------------------------------------------

  lemma WordBlockBalanced(t: Token, c: seq<Event>)
    requires Flat(c)
    ensures Balanced(WordStart(t) + c + [EndElement])
  {
    var attrs := WordStart(t)[1..];
    assert Flat(attrs);
    FlatBalanced(attrs + c);
    assert WordStart(t) + c + [EndElement] == [StartElement("w")] + (attrs + c) + [EndElement];
    Wrap("w", attrs + c);
  }

  lemma {:induction false} WordsBalanced(text: string, tokens: seq<Token>)
    requires SpansInOrder(text, tokens)
    ensures Balanced(WordsEvents(text, tokens))
    decreases |tokens|
  {
    if tokens != [] {
      var t := tokens[|tokens| - 1];
      TextEventsFacts(text[t.begin..t.end]);
      WordBlockBalanced(t, TextEvents(text[t.begin..t.end]));
      if |tokens| > 1 {
        var init := tokens[..|tokens| - 1];
        assert SpansInOrder(text, init);
        WordsBalanced(text, init);
        var g := TextEvents(text[init[|init| - 1].end..t.begin]);
        TextEventsFacts(text[init[|init| - 1].end..t.begin]);
        FlatBalanced(g);
        BalancedAppend(WordsEvents(text, init), g);
        BalancedAppend(WordsEvents(text, init) + g, WordElement(text, t));
      }
    } else {
      FlatBalanced([]);
    }
  }

  lemma SentenceBalanced(text: string, offset: int, tokens: seq<Token>)
    requires ChainedFrom(text, offset, tokens)
    ensures Balanced(SentenceEvents(text, offset, tokens).events)
  {
    if tokens == [] {
      SentenceLayout(text, offset, tokens);
      FlatBalanced([]);
    } else {
      SentenceParts(text, offset, tokens);
      var g := TextEvents(text[offset..tokens[0].begin]);
      TextEventsFacts(text[offset..tokens[0].begin]);
      FlatBalanced(g);
      WordsBalanced(text, tokens);
      Wrap("s", WordsEvents(text, tokens));
      BalancedAppend(g, [StartElement("s")] + WordsEvents(text, tokens) + [EndElement]);
    }
  }

  lemma {:induction false} SentencesBalanced(text: string, sentences: seq<Sentence>)
    requires ChainedFrom(text, 0, Flatten(sentences))
    ensures Balanced(SentencesEvents(text, sentences).events)
    decreases |sentences|
  {
    if sentences == [] {
      FlatBalanced([]);
    } else {
      var init := sentences[..|sentences| - 1];
      SentencesStep(text, sentences);
      SentencesBalanced(text, init);
      var p := SentencesEvents(text, init).offset;
      SentenceBalanced(text, p, sentences[|sentences| - 1]);
      BalancedAppend(SentencesEvents(text, init).events, SentenceEvents(text, p, sentences[|sentences| - 1]).events);
    }
  }

  /**
   * Whenever writeAnnotated completes, its output is one `ab` element that
   * encloses everything else: every start is matched by a later end, and
   * `ab` stays open at every point strictly inside the output.
   */
  lemma AnnotatedWellNested(text: string, sentences: seq<Sentence>)
    requires AnnotatedEvents(text, sentences).ok
    ensures Rooted(AnnotatedEvents(text, sentences).events)
    ensures AnnotatedEvents(text, sentences).events[0] == StartElement("ab")
    ensures forall k :: 1 <= k < |AnnotatedEvents(text, sentences).events| ==>
      Depth(AnnotatedEvents(text, sentences).events[..k]) >= 1
  {
    SentencesOkIff(text, sentences);
    SentencesBalanced(text, sentences);
    var body := SentencesEvents(text, sentences).events;
    Wrap("ab", body);
    RootEnclosesAll(AnnotatedEvents(text, sentences).events);
  }

  // -- element skeleton ------------------------------------------------------------

  /** Tags only: no character content and no line break. */
  predicate IsTag(e: Event)
  {
    !e.Chars? && !e.EmptyLb?
  }

  lemma {:induction false} TagsAreElements(es: seq<Event>)
    requires forall i :: 0 <= i < |es| ==> IsTag(es[i])
    ensures Elements(es) == es
  {
    if es != [] {
      assert IsTag(es[0]);
      TagsAreElements(es[1..]);
    }
  }

  lemma WordBlockElements(t: Token, c: seq<Event>)
    requires Elements(c) == []
    ensures Elements(WordStart(t) + c + [EndElement]) == WordShape(t)
  {
    TagsAreElements(WordStart(t));
    SingleContents(EndElement);
    ElementsAppend(WordStart(t), c);
    ElementsAppend(WordStart(t) + c, [EndElement]);
  }

  lemma {:induction false} WordsElements(text: string, tokens: seq<Token>)
    requires SpansInOrder(text, tokens)
    ensures Elements(WordsEvents(text, tokens)) == WordShapes(tokens)
    decreases |tokens|
  {
    if tokens != [] {
      var t := tokens[|tokens| - 1];
      TextEventsFacts(text[t.begin..t.end]);
      WordBlockElements(t, TextEvents(text[t.begin..t.end]));
      if |tokens| > 1 {
        var init := tokens[..|tokens| - 1];
        assert SpansInOrder(text, init);
        WordsElements(text, init);
        var g := TextEvents(text[init[|init| - 1].end..t.begin]);
        TextEventsFacts(text[init[|init| - 1].end..t.begin]);
        ElementsAppend(WordsEvents(text, init), g);
        ElementsAppend(WordsEvents(text, init) + g, WordElement(text, t));
      } else {
        assert WordShapes(tokens) == [] + WordShape(t);
      }
    }
  }

  lemma SentenceElements(text: string, offset: int, tokens: seq<Token>)
    requires ChainedFrom(text, offset, tokens)
    ensures Elements(SentenceEvents(text, offset, tokens).events) == SentenceShape(tokens)
  {
    if tokens == [] {
      SentenceLayout(text, offset, tokens);
    } else {
      SentenceParts(text, offset, tokens);
      var g := TextEvents(text[offset..tokens[0].begin]);
      TextEventsFacts(text[offset..tokens[0].begin]);
      WordsElements(text, tokens);
      WrapElements("s", WordsEvents(text, tokens));
      ElementsAppend(g, [StartElement("s")] + WordsEvents(text, tokens) + [EndElement]);
    }
  }

  lemma {:induction false} SentencesElements(text: string, sentences: seq<Sentence>)
    requires ChainedFrom(text, 0, Flatten(sentences))
    ensures Elements(SentencesEvents(text, sentences).events) == SentenceShapes(sentences)
    decreases |sentences|
  {
    if sentences != [] {
      var init := sentences[..|sentences| - 1];
      SentencesStep(text, sentences);
      SentencesElements(text, init);
      var p := SentencesEvents(text, init).offset;
      SentenceElements(text, p, sentences[|sentences| - 1]);
      ElementsAppend(SentencesEvents(text, init).events, SentenceEvents(text, p, sentences[|sentences| - 1]).events);
    }
  }

  /**
   * Whenever writeAnnotated completes, the elements it writes are exactly one
   * `ab`, holding one `s` per sentence with tokens (none for an empty one),
   * each holding one `w` per token in order, with the token's lemma, POS and
   * NER tags as the attributes `lemma`, `type` and `function`.
   */
  lemma AnnotatedElements(text: string, sentences: seq<Sentence>)
    requires AnnotatedEvents(text, sentences).ok
    ensures Elements(AnnotatedEvents(text, sentences).events) == ExpectedElements(sentences)
  {
    SentencesOkIff(text, sentences);
    SentencesElements(text, sentences);
    WrapElements("ab", SentencesEvents(text, sentences).events);
  }

  lemma {:induction false} NoStarts(es: seq<Event>, name: string)
    requires forall i :: 0 <= i < |es| ==> !es[i].StartElement?
    ensures Occurrences(es, StartElement(name)) == 0
  {
    if es != [] {
      assert !es[0].StartElement?;
      NoStarts(es[1..], name);
    }
  }

  lemma WordShapeCount(t: Token, name: string)
    ensures Occurrences(WordShape(t), StartElement(name)) == if name == "w" then 1 else 0
  {
    var shape := WordShape(t);
    assert shape == [StartElement("w")] + shape[1..];
    NoStarts(shape[1..], name);
    OccurrencesAppend([StartElement("w")], shape[1..], StartElement(name));
    SingleCount(StartElement("w"), StartElement(name));
  }

  lemma SingleCount(e: Event, f: Event)
    ensures Occurrences([e], f) == if e == f then 1 else 0
  {
    assert [e][1..] == [];
  }

  lemma {:induction false} WordShapesCount(tokens: seq<Token>, name: string)
    ensures Occurrences(WordShapes(tokens), StartElement(name)) == if name == "w" then |tokens| else 0
    decreases |tokens|
  {
    if tokens != [] {
      WordShapesCount(tokens[..|tokens| - 1], name);
      OccurrencesAppend(WordShapes(tokens[..|tokens| - 1]), WordShape(tokens[|tokens| - 1]), StartElement(name));
      WordShapeCount(tokens[|tokens| - 1], name);
    }
  }

  lemma SentenceShapeCount(tokens: seq<Token>, name: string)
    ensures Occurrences(SentenceShape(tokens), StartElement(name)) ==
      if name == "w" then |tokens| else if name == "s" && tokens != [] then 1 else 0
  {
    if tokens != [] {
      WordShapesCount(tokens, name);
      OccurrencesAppend([StartElement("s")], WordShapes(tokens), StartElement(name));
      OccurrencesAppend([StartElement("s")] + WordShapes(tokens), [EndElement], StartElement(name));
      SingleCount(StartElement("s"), StartElement(name));
      SingleCount(EndElement, StartElement(name));
    }
  }

  lemma {:induction false} SentenceShapesCount(sentences: seq<Sentence>, name: string)
    ensures Occurrences(SentenceShapes(sentences), StartElement(name)) ==
      if name == "w" then |Flatten(sentences)| else if name == "s" then NonEmptyCount(sentences) else 0
    decreases |sentences|
  {
    if sentences != [] {
      var last := sentences[|sentences| - 1];
      SentenceShapesCount(sentences[..|sentences| - 1], name);
      OccurrencesAppend(SentenceShapes(sentences[..|sentences| - 1]), SentenceShape(last), StartElement(name));
      SentenceShapeCount(last, name);
    }
  }

  /** How often an element starts in the expected skeleton of a completed run. */
  lemma ExpectedCount(sentences: seq<Sentence>, name: string)
    ensures Occurrences(ExpectedElements(sentences), StartElement(name)) ==
      if name == "w" then |Flatten(sentences)| else if name == "s" then NonEmptyCount(sentences)
      else if name == "ab" then 1 else 0
  {
    var shapes := SentenceShapes(sentences);
    SentenceShapesCount(sentences, name);
    OccurrencesAppend([StartElement("ab")], shapes, StartElement(name));
    OccurrencesAppend([StartElement("ab")] + shapes, [EndElement], StartElement(name));
    SingleCount(StartElement("ab"), StartElement(name));
    SingleCount(EndElement, StartElement(name));
  }

  /**
   * Whenever writeAnnotated completes: one `w` per token, one `s` per
   * sentence with tokens, and a single `ab`.
   */
  lemma AnnotatedCounts(text: string, sentences: seq<Sentence>)
    requires AnnotatedEvents(text, sentences).ok
    ensures Occurrences(AnnotatedEvents(text, sentences).events, StartElement("w")) == |Flatten(sentences)|
    ensures Occurrences(AnnotatedEvents(text, sentences).events, StartElement("s")) == NonEmptyCount(sentences)
    ensures Occurrences(AnnotatedEvents(text, sentences).events, StartElement("ab")) == 1
  {
    var es := AnnotatedEvents(text, sentences).events;
    AnnotatedElements(text, sentences);
    ElementsKeepStarts(es, "w");
    ElementsKeepStarts(es, "s");
    ElementsKeepStarts(es, "ab");
    ExpectedCount(sentences, "w");
    ExpectedCount(sentences, "s");
    ExpectedCount(sentences, "ab");
  }

  // -- text --------------------------------------------------------------------

  lemma {:induction false} TagsHaveNoText(es: seq<Event>)
    requires forall i :: 0 <= i < |es| ==> IsTag(es[i])
    ensures TextOf(es) == ""
  {
    if es != [] {
      assert IsTag(es[0]);
      TagsHaveNoText(es[1..]);
    }
  }

  lemma WordBlockText(t: Token, c: seq<Event>)
    ensures TextOf(WordStart(t) + c + [EndElement]) == TextOf(c)
  {
    TagsHaveNoText(WordStart(t));
    SingleContents(EndElement);
    TextOfAppend(WordStart(t), c);
    TextOfAppend(WordStart(t) + c, [EndElement]);
  }

  lemma SliceJoin(text: string, a: int, b: int, c: int)
    requires 0 <= a <= b <= c <= |text|
    ensures text[a..b] + text[b..c] == text[a..c]
  {
  }

  lemma TextOfThree(x: seq<Event>, y: seq<Event>, z: seq<Event>)
    ensures TextOf(x + y + z) == TextOf(x) + TextOf(y) + TextOf(z)
  {
    TextOfAppend(x, y);
    TextOfAppend(x + y, z);
  }

  lemma {:induction false} WordsText(text: string, tokens: seq<Token>)
    requires tokens != [] && SpansInOrder(text, tokens)
    ensures tokens[0].begin <= tokens[|tokens| - 1].end
    ensures TextOf(WordsEvents(text, tokens)) == text[tokens[0].begin..tokens[|tokens| - 1].end]
    decreases |tokens|
  {
    var t := tokens[|tokens| - 1];
    TextEventsRoundTrip(text[t.begin..t.end]);
    WordBlockText(t, TextEvents(text[t.begin..t.end]));
    if |tokens| > 1 {
      var init := tokens[..|tokens| - 1];
      var p := init[|init| - 1].end;
      assert init[0] == tokens[0];
      assert SpansInOrder(text, init);
      assert p <= t.begin;
      WordsText(text, init);
      TextEventsRoundTrip(text[p..t.begin]);
      TextOfThree(WordsEvents(text, init), TextEvents(text[p..t.begin]), WordElement(text, t));
      SliceJoin(text, tokens[0].begin, p, t.begin);
      SliceJoin(text, tokens[0].begin, t.begin, t.end);
    }
  }

  lemma SentenceText(text: string, offset: int, tokens: seq<Token>)
    requires 0 <= offset <= |text| && ChainedFrom(text, offset, tokens)
    ensures offset <= EndAfter(offset, tokens) <= |text|
    ensures TextOf(SentenceEvents(text, offset, tokens).events) == text[offset..EndAfter(offset, tokens)]
  {
    ChainedBounds(text, offset, tokens);
    if tokens == [] {
      SentenceLayout(text, offset, tokens);
    } else {
      SentenceParts(text, offset, tokens);
      var g := TextEvents(text[offset..tokens[0].begin]);
      TextEventsRoundTrip(text[offset..tokens[0].begin]);
      WordsText(text, tokens);
      WrapText("s", WordsEvents(text, tokens));
      TextOfAppend(g, [StartElement("s")] + WordsEvents(text, tokens) + [EndElement]);
      SliceJoin(text, offset, tokens[0].begin, EndAfter(offset, tokens));
    }
  }

  lemma {:induction false} SentencesText(text: string, sentences: seq<Sentence>)
    requires ChainedFrom(text, 0, Flatten(sentences))
    ensures 0 <= EndAfter(0, Flatten(sentences)) <= |text|
    ensures TextOf(SentencesEvents(text, sentences).events) == text[..EndAfter(0, Flatten(sentences))]
    decreases |sentences|
  {
    ChainedBounds(text, 0, Flatten(sentences));
    if sentences != [] {
      var init := sentences[..|sentences| - 1];
      var last := sentences[|sentences| - 1];
      SentencesStep(text, sentences);
      SentencesText(text, init);
      var p := SentencesEvents(text, init).offset;
      SentenceText(text, p, last);
      TextOfAppend(SentencesEvents(text, init).events, SentenceEvents(text, p, last).events);
      SliceJoin(text, 0, p, EndAfter(p, last));
      assert text[..p] == text[0..p];
    }
  }

  /**
   * Whenever writeAnnotated completes, the text it writes (runs, with each
   * `lb` read as a newline) is the input up to the end of the last token:
   * it is the whole input exactly when the last token ends the text, so any
   * text after the final token is dropped.
   */
  lemma AnnotatedText(text: string, sentences: seq<Sentence>)
    requires AnnotatedEvents(text, sentences).ok
    ensures 0 <= EndAfter(0, Flatten(sentences)) <= |text|
    ensures TextOf(AnnotatedEvents(text, sentences).events) == text[..EndAfter(0, Flatten(sentences))]
    ensures TextOf(AnnotatedEvents(text, sentences).events) == text <==> EndAfter(0, Flatten(sentences)) == |text|
  {
    SentencesOkIff(text, sentences);
    SentencesText(text, sentences);
    WrapText("ab", SentencesEvents(text, sentences).events);
  }

  // -- no empty runs, whatever the input ------------------------------------------------

  lemma TokenRuns(text: string, offset: int, t: Token, started: bool)
    ensures NoEmptyRuns(TokenEvents(text, offset, t, started).events)
  {
    var open: seq<Event> := if started then [] else [StartElement("s")];
    assert NoEmptyRuns(WordStart(t)) && NoEmptyRuns(open) && NoEmptyRuns([EndElement]);
    if 0 <= offset <= t.begin <= |text| {
      var g := TextEvents(text[offset..t.begin]);
      TextEventsFacts(text[offset..t.begin]);
      NoEmptyRunsAppend(g, open);
      NoEmptyRunsAppend(g + open, WordStart(t));
      if 0 <= t.begin <= t.end <= |text| {
        var c := TextEvents(text[t.begin..t.end]);
        TextEventsFacts(text[t.begin..t.end]);
        NoEmptyRunsAppend(g + open + WordStart(t), c);
        NoEmptyRunsAppend(g + open + WordStart(t) + c, [EndElement]);
      }
    }
  }

  lemma {:induction false} TokensRuns(text: string, offset: int, tokens: seq<Token>)
    ensures NoEmptyRuns(TokensEvents(text, offset, tokens).events)
    decreases |tokens|
  {
    if tokens != [] {
      var before := TokensEvents(text, offset, tokens[..|tokens| - 1]);
      TokensRuns(text, offset, tokens[..|tokens| - 1]);
      if before.ok {
        TokenRuns(text, before.offset, tokens[|tokens| - 1], |tokens| > 1);
        NoEmptyRunsAppend(before.events, TokenEvents(text, before.offset, tokens[|tokens| - 1], |tokens| > 1).events);
      }
    }
  }

  lemma {:induction false} SentencesRuns(text: string, sentences: seq<Sentence>)
    ensures NoEmptyRuns(SentencesEvents(text, sentences).events)
    decreases |sentences|
  {
    if sentences != [] {
      var before := SentencesEvents(text, sentences[..|sentences| - 1]);
      SentencesRuns(text, sentences[..|sentences| - 1]);
      if before.ok {
        var last := sentences[|sentences| - 1];
        var r := TokensEvents(text, before.offset, last);
        TokensRuns(text, before.offset, last);
        assert NoEmptyRuns([EndElement]);
        NoEmptyRunsAppend(r.events, [EndElement]);
        NoEmptyRunsAppend(before.events, SentenceEvents(text, before.offset, last).events);
      }
    }
  }

  /** writeAnnotated never writes an empty character run, whether or not it completes. */
  lemma AnnotatedNoEmptyRuns(text: string, sentences: seq<Sentence>)
    ensures NoEmptyRuns(AnnotatedEvents(text, sentences).events)
  {
    var body := SentencesEvents(text, sentences);
    SentencesRuns(text, sentences);
    assert NoEmptyRuns([StartElement("ab")]) && NoEmptyRuns([EndElement]);
    NoEmptyRunsAppend([StartElement("ab")], body.events);
    NoEmptyRunsAppend([StartElement("ab")] + body.events, if body.ok then [EndElement] else []);
  }

  // -- a worked example ----------------------------------------------------------

  const ExampleText: string := "Hi.\nBye."
  const Hi: Token := Token(0, 2, "hi", "UH", "O")
  const Dot1: Token := Token(2, 3, ".", ".", "O")
  const Bye: Token := Token(4, 7, "bye", "UH", "O")
  const Dot2: Token := Token(7, 8, ".", ".", "O")

  lemma ExampleRuns()
    ensures TextEvents(ExampleText[0..0]) == [] && TextEvents(ExampleText[2..2]) == [] && TextEvents(ExampleText[7..7]) == []
    ensures TextEvents(ExampleText[0..2]) == [Chars("Hi")] && TextEvents(ExampleText[2..3]) == [Chars(".")]
    ensures TextEvents(ExampleText[3..4]) == [EmptyLb]
    ensures TextEvents(ExampleText[4..7]) == [Chars("Bye")] && TextEvents(ExampleText[7..8]) == [Chars(".")]
  {
    assert ExampleText[0..2] == "Hi" && ExampleText[2..3] == "." && ExampleText[3..4] == "\n";
    assert ExampleText[4..7] == "Bye" && ExampleText[7..8] == ".";
    LineEndAt("Hi", 2);
    LineEndAt(".", 1);
    LineEndAt("Bye", 3);
    LineEndAt("\n", 0);
    assert "\n"[1..] == [];
  }

  lemma ExampleSpans()
    ensures ChainedFrom(ExampleText, 0, [Hi, Dot1]) && SpansInOrder(ExampleText, [Hi, Dot1])
    ensures ChainedFrom(ExampleText, 3, [Bye, Dot2]) && SpansInOrder(ExampleText, [Bye, Dot2])
  {
    assert Before(0, [Hi, Dot1], 0) == 0 && Before(0, [Hi, Dot1], 1) == 2;
    assert Before(3, [Bye, Dot2], 0) == 3 && Before(3, [Bye, Dot2], 1) == 7;
  }

  lemma TwoWords(text: string, a: Token, b: Token)
    requires 0 <= a.begin <= a.end <= b.begin <= b.end <= |text|
    ensures SpansInOrder(text, [a, b])
    ensures WordsEvents(text, [a, b]) == WordElement(text, a) + TextEvents(text[a.end..b.begin]) + WordElement(text, b)
  {
    assert [a, b][..1] == [a];
  }

  /** A sentence of two chained tokens: the gap, then `s` around the two words and the text between them. */
  lemma TwoWordSentence(text: string, offset: int, a: Token, b: Token)
    requires ChainedFrom(text, offset, [a, b])
    ensures 0 <= offset <= a.begin <= a.end <= b.begin <= b.end <= |text|
    ensures SentenceEvents(text, offset, [a, b]) ==
      Emitted(TextEvents(text[offset..a.begin]) + [StartElement("s")] +
              (WordElement(text, a) + TextEvents(text[a.end..b.begin]) + WordElement(text, b)) + [EndElement],
              b.end, true)
  {
    SentenceLayout(text, offset, [a, b]);
    assert [a, b][0] == a && [a, b][1] == b;
    assert a.begin <= a.end <= b.begin <= b.end <= |text| by {
      assert SpanOk(text, offset, a);
    }
    TwoWords(text, a, b);
  }

  /** The first sentence: `s` opens at once (no text before "Hi") and holds both words. */
  lemma ExampleFirst()
    ensures SentenceEvents(ExampleText, 0, [Hi, Dot1]) ==
      Emitted([StartElement("s")] + WordStart(Hi) + [Chars("Hi"), EndElement] +
              WordStart(Dot1) + [Chars("."), EndElement] + [EndElement], 3, true)
  {
    ExampleSpans();
    TwoWordSentence(ExampleText, 0, Hi, Dot1);
    ExampleRuns();
  }

  /** The second sentence: the newline before "Bye" is an `lb` written before `s` opens. */
  lemma ExampleSecond()
    ensures SentenceEvents(ExampleText, 3, [Bye, Dot2]) ==
      Emitted([EmptyLb, StartElement("s")] + WordStart(Bye) + [Chars("Bye"), EndElement] +
              WordStart(Dot2) + [Chars("."), EndElement] + [EndElement], 8, true)
  {
    ExampleSpans();
    TwoWordSentence(ExampleText, 3, Bye, Dot2);
    ExampleRuns();
  }

  /** Two sentences, the first of which completes. */
  lemma AnnotatedPair(text: string, first: Sentence, second: Sentence)
    requires SentenceEvents(text, 0, first).ok
    ensures AnnotatedEvents(text, [first, second]) ==
      var r1 := SentenceEvents(text, 0, first);
      var r2 := SentenceEvents(text, r1.offset, second);
      Emitted([StartElement("ab")] + r1.events + r2.events + (if r2.ok then [EndElement] else []), r2.offset, r2.ok)
  {
    var both := [first, second];
    assert both[..1] == [first] && [first][..0] == [];
    var r1 := SentenceEvents(text, 0, first);
    assert SentencesEvents(text, [first]) == Emitted([] + r1.events, r1.offset, true);
    AppendAssoc([StartElement("ab")], r1.events, SentenceEvents(text, r1.offset, second).events);
  }

  /**
   * "Hi.\nBye." as two sentences: one `ab` around the two sentences above,
   * closed after the last token; with ExampleFirst and ExampleSecond, a single
   * `lb` for the newline between the sentences and no empty run.
   */
  lemma TwoSentenceExample()
    ensures AnnotatedEvents(ExampleText, [[Hi, Dot1], [Bye, Dot2]]) ==
      Emitted([StartElement("ab")] + SentenceEvents(ExampleText, 0, [Hi, Dot1]).events +
              SentenceEvents(ExampleText, 3, [Bye, Dot2]).events + [EndElement], 8, true)
  {
    ExampleFirst();
    ExampleSecond();
    AnnotatedPair(ExampleText, [Hi, Dot1], [Bye, Dot2]);
  }
}
