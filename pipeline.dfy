/**
 * The annotation-to-markup serializer: `writeText` splits a flat string into
 * character runs and `lb` elements, and `writeAnnotated` walks the text with the
 * annotator's sentences and tokens, emitting an `ab` block of `s` and `w`
 * elements whose character content is the original text.
 *
 * Each method is proved against a specification function over the event
 * sequence it appends to the writer; the laws of those functions are in
 * module PipelineLaws.
 */
module Pipeline {
  import opened Wrappers
  import opened Markup

  /** One token from the annotator: the half-open span [begin, end) and its tags. */
  datatype Token = Token(begin: int, end: int, lemmaTag: string, posTag: string, nerTag: string)

  type Sentence = seq<Token>

  /** String.indexOf(c, from): the first position at or after `from` holding `c`, or -1. */
  function IndexOf(s: string, c: char, from: nat): (r: int)
    requires from <= |s|
    ensures r == -1 || from <= r < |s|
    ensures r == -1 ==> forall i :: from <= i < |s| ==> s[i] != c
    ensures r != -1 ==> s[r] == c && forall i :: from <= i < r ==> s[i] != c
    decreases |s| - from
  {
    if from == |s| then -1
    else if s[from] == c then from
    else IndexOf(s, c, from + 1)
  }

  /** String.substring(b, e); None where Java throws StringIndexOutOfBoundsException. */
  function Substring(s: string, b: int, e: int): (r: Option<string>)
    ensures r.Some? <==> 0 <= b <= e <= |s|
    ensures r.Some? ==> |r.value| == e - b && forall i :: 0 <= i < e - b ==> r.value[i] == s[b + i]
  {
    if 0 <= b <= e <= |s| then Some(s[b..e]) else None
  }

  /** The position of the first newline in `s`, or |s| when there is none. */
  function LineEnd(s: string): (k: nat)
    ensures k <= |s|
  {
    if s == [] || s[0] == '\n' then 0 else 1 + LineEnd(s[1..])
  }

  /**
   * What `writeText` emits for `s`: the run before the first newline (when
   * non-empty), one `lb`, then the rest; a string without newline is one run.
   */
  function TextEvents(s: string): seq<Event>
    decreases |s|
  {
    if s == [] then []
    else
      var k := LineEnd(s);
      if k == |s| then [Chars(s)]
      else (if k > 0 then [Chars(s[..k])] else []) + [EmptyLb] + TextEvents(s[k + 1..])
  }

  /** LineEnd finds the first newline, as String.indexOf does. */
  lemma {:induction false} LineEndIsFirstNewline(s: string)
    ensures LineEnd(s) <= |s|
    ensures LineEnd(s) < |s| ==> s[LineEnd(s)] == '\n'
    ensures forall i :: 0 <= i < LineEnd(s) ==> s[i] != '\n'
  {
    if s != [] && s[0] != '\n' {
      LineEndIsFirstNewline(s[1..]);
    }
  }

  /** Searching from `from` finds the first newline of the suffix that starts there. */
  lemma IndexOfIsLineEnd(s: string, from: nat)
    requires from <= |s|
    ensures IndexOf(s, '\n', from) == if LineEnd(s[from..]) == |s| - from then -1 else from + LineEnd(s[from..])
  {
    var r := IndexOf(s, '\n', from);
    var k := LineEnd(s[from..]);
    LineEndIsFirstNewline(s[from..]);
  }

  /** The run `writeText` emits before the newline at `lb`: empty when the newline is at `offset`. */
  function RunBefore(text: string, offset: nat, lb: int): seq<Event>
    requires offset <= lb <= |text|
  {
    if offset < lb then [Chars(text[offset..lb])] else []
  }

  /**
   * One pass of the `writeText` loop, seen from the not yet written suffix:
   * what the pass writes, followed by what is left, is what was left before.
   */
  lemma TextEventsStep(text: string, offset: nat, written: seq<Event>, total: seq<Event>)
    requires offset < |text|
    requires written + TextEvents(text[offset..]) == total
    ensures IndexOf(text, '\n', offset) < 0 ==> written + [Chars(text[offset..|text|])] == total
    ensures IndexOf(text, '\n', offset) >= 0 ==>
      var lb := IndexOf(text, '\n', offset);
      written + RunBefore(text, offset, lb) + [EmptyLb] + TextEvents(text[lb + 1..]) == total
  {
    var lb := IndexOf(text, '\n', offset);
    IndexOfIsLineEnd(text, offset);
    var rest := text[offset..];
    if lb >= 0 {
      var run := RunBefore(text, offset, lb);
      var tail := TextEvents(text[lb + 1..]);
      assert LineEnd(rest) == lb - offset;
      assert rest[..lb - offset] == text[offset..lb];
      assert rest[lb - offset + 1..] == text[lb + 1..];
      assert TextEvents(rest) == run + [EmptyLb] + tail;
      AppendAssoc(written, run + [EmptyLb], tail);
      AppendAssoc(written, run, [EmptyLb]);
    } else {
      assert rest == text[offset..|text|];
    }
  }

  /** The loop of `writeText`; appends exactly TextEvents(text). */
  method WriteText(xml: XmlWriter, text: string)
    modifies xml
    ensures xml.events == old(xml.events) + TextEvents(text)
  {
    var length := |text|;
    var offset := 0;
    ghost var total := old(xml.events) + TextEvents(text);
    assert text[offset..] == text;
    while offset < length
      invariant 0 <= offset <= length
      invariant xml.events + TextEvents(text[offset..]) == total
      decreases length - offset
    {
      var lb := IndexOf(text, '\n', offset);
      TextEventsStep(text, offset, xml.events, total);
      ghost var written := xml.events;
      if offset < lb {
        xml.WriteCharacters(text[offset..lb]);
      }
      if lb >= 0 {
        xml.WriteEmptyLb();
        assert xml.events == written + RunBefore(text, offset, lb) + [EmptyLb];
        offset := lb + 1;
        assert xml.events + TextEvents(text[offset..]) == total;
      } else {
        xml.WriteCharacters(text[offset..length]);
        break;
      }
    }
    assert xml.events == total by {
      if offset == length {
        assert text[offset..] == [];
      }
    }
  }

  /** The start of a `w` element with the token's lemma, POS and NER tags, in that order. */
  function WordStart(t: Token): seq<Event>
  {
    [StartElement("w"), Attribute("lemma", t.lemmaTag), Attribute("type", t.posTag), Attribute("function", t.nerTag)]
  }

  /** Four single writes in the order `writeAnnotated` makes them append WordStart(t). */
  lemma WordStartWritten(e0: seq<Event>, t: Token, e1: seq<Event>, e2: seq<Event>, e3: seq<Event>, e4: seq<Event>)
    requires e1 == e0 + [StartElement("w")]
    requires e2 == e1 + [Attribute("lemma", t.lemmaTag)]
    requires e3 == e2 + [Attribute("type", t.posTag)]
    requires e4 == e3 + [Attribute("function", t.nerTag)]
    ensures e4 == e0 + WordStart(t)
  {
  }

  /**
   * Events written so far, the `offset` reached, and whether no substring
   * failed (a failure ends `writeAnnotated` with an exception, leaving the
   * events already written in the writer).
   */
  datatype Emitted = Emitted(events: seq<Event>, offset: int, ok: bool)

  /**
   * One pass of the inner loop for token `t` with the emitted prefix ending at
   * `offset`; `started` tells whether the sentence element is already open.
   */
  function TokenEvents(text: string, offset: int, t: Token, started: bool): Emitted
  {
    match Substring(text, offset, t.begin)
    case None => Emitted([], offset, false)
    case Some(gap) =>
      var head := TextEvents(gap) + (if started then [] else [StartElement("s")]) + WordStart(t);
      match Substring(text, t.begin, t.end)
      case None => Emitted(head, t.end, false)
      case Some(content) => Emitted(head + TextEvents(content) + [EndElement], t.end, true)
  }

  /** The inner loop over the tokens of one sentence, starting at `offset`. */
  function TokensEvents(text: string, offset: int, tokens: seq<Token>): Emitted
  {
    if tokens == [] then Emitted([], offset, true)
    else
      var before := TokensEvents(text, offset, tokens[..|tokens| - 1]);
      if !before.ok then before
      else
        var last := TokenEvents(text, before.offset, tokens[|tokens| - 1], |tokens| > 1);
        Emitted(before.events + last.events, last.offset, last.ok)
  }

  /** One sentence: its tokens, then the end of `s` when it was opened. */
  function SentenceEvents(text: string, offset: int, tokens: seq<Token>): Emitted
  {
    var r := TokensEvents(text, offset, tokens);
    if r.ok && tokens != [] then Emitted(r.events + [EndElement], r.offset, true) else r
  }

  /** The outer loop over sentences; `offset` starts at 0 and is carried across sentences. */
  function SentencesEvents(text: string, sentences: seq<Sentence>): Emitted
  {
    if sentences == [] then Emitted([], 0, true)
    else
      var before := SentencesEvents(text, sentences[..|sentences| - 1]);
      if !before.ok then before
      else
        var last := SentenceEvents(text, before.offset, sentences[|sentences| - 1]);
        Emitted(before.events + last.events, last.offset, last.ok)
  }

  /** Everything `writeAnnotated` writes: the `ab` block around the sentences, closed unless a substring failed. */
  function AnnotatedEvents(text: string, sentences: seq<Sentence>): Emitted
  {
    var body := SentencesEvents(text, sentences);
    Emitted([StartElement("ab")] + body.events + (if body.ok then [EndElement] else []), body.offset, body.ok)
  }

  /** Extending the tokens by one runs one more pass of the inner loop. */
  lemma TokensSnoc(text: string, offset: int, tokens: seq<Token>, i: nat)
    requires i < |tokens|
    requires TokensEvents(text, offset, tokens[..i]).ok
    ensures
      var before := TokensEvents(text, offset, tokens[..i]);
      var last := TokenEvents(text, before.offset, tokens[i], i > 0);
      TokensEvents(text, offset, tokens[..i + 1]) == Emitted(before.events + last.events, last.offset, last.ok)
  {
    assert tokens[..i + 1][..i] == tokens[..i];
  }

  /** Extending the sentences by one runs one more pass of the outer loop. */
  lemma SentencesSnoc(text: string, sentences: seq<Sentence>, i: nat)
    requires i < |sentences|
    requires SentencesEvents(text, sentences[..i]).ok
    ensures
      var before := SentencesEvents(text, sentences[..i]);
      var last := SentenceEvents(text, before.offset, sentences[i]);
      SentencesEvents(text, sentences[..i + 1]) == Emitted(before.events + last.events, last.offset, last.ok)
  {
    assert sentences[..i + 1][..i] == sentences[..i];
  }

  /** Once a token fails, the rest of the sentence writes nothing more. */
  lemma {:induction false} TokensFailureSticks(text: string, offset: int, tokens: seq<Token>, k: nat)
    requires k <= |tokens|
    requires !TokensEvents(text, offset, tokens[..k]).ok
    ensures TokensEvents(text, offset, tokens) == TokensEvents(text, offset, tokens[..k])
    decreases |tokens|
  {
    if k == |tokens| {
      assert tokens[..k] == tokens;
    } else {
      var init := tokens[..|tokens| - 1];
      assert init[..k] == tokens[..k];
      TokensFailureSticks(text, offset, init, k);
    }
  }

  /** Once a sentence fails, the remaining sentences write nothing more. */
  lemma {:induction false} SentencesFailureSticks(text: string, sentences: seq<Sentence>, k: nat)
    requires k <= |sentences|
    requires !SentencesEvents(text, sentences[..k]).ok
    ensures SentencesEvents(text, sentences) == SentencesEvents(text, sentences[..k])
    decreases |sentences|
  {
    if k == |sentences| {
      assert sentences[..k] == sentences;
    } else {
      var init := sentences[..|sentences| - 1];
      assert init[..k] == sentences[..k];
      SentencesFailureSticks(text, init, k);
    }
  }

  /** A substring failure at token `ti` of sentence `si` is where `writeAnnotated` stops. */
  lemma FailureInSentence(text: string, sentences: seq<Sentence>, si: nat, ti: nat)
    requires si < |sentences| && ti < |sentences[si]|
    requires SentencesEvents(text, sentences[..si]).ok
    requires !TokensEvents(text, SentencesEvents(text, sentences[..si]).offset, sentences[si][..ti + 1]).ok
    ensures
      var before := SentencesEvents(text, sentences[..si]);
      var failed := TokensEvents(text, before.offset, sentences[si][..ti + 1]);
      AnnotatedEvents(text, sentences) ==
        Emitted([StartElement("ab")] + before.events + failed.events, failed.offset, false)
  {
    var before := SentencesEvents(text, sentences[..si]);
    TokensFailureSticks(text, before.offset, sentences[si], ti + 1);
    SentencesSnoc(text, sentences, si);
    SentencesFailureSticks(text, sentences, si + 1);
  }

  /**
   * The body of the inner loop of `writeAnnotated` for one token: the gap
   * before it, the lazily opened `s`, and the `w` element with its content.
   * Returns the new offset and false where Java's substring throws.
   */
  method WriteToken(xml: XmlWriter, text: string, offset: int, token: Token, sentenceStarted: bool)
    returns (newOffset: int, ok: bool)
    modifies xml
    ensures ok == TokenEvents(text, offset, token, sentenceStarted).ok
    ensures newOffset == TokenEvents(text, offset, token, sentenceStarted).offset
    ensures xml.events == old(xml.events) + TokenEvents(text, offset, token, sentenceStarted).events
  {
    var tokenStart := token.begin;
    var gap := Substring(text, offset, tokenStart);
    if gap.None? {
      return offset, false;
    }
    ghost var base := xml.events;
    WriteText(xml, gap.value);
    ghost var g := TextEvents(gap.value);
    ghost var e1 := xml.events;
    if !sentenceStarted {
      xml.WriteStartElement("s");
    }
    ghost var open := if sentenceStarted then [] else [StartElement("s")];
    ghost var e2 := xml.events;
    assert e2 == e1 + open;
    xml.WriteStartElement("w");
    ghost var e3 := xml.events;
    xml.WriteAttribute("lemma", token.lemmaTag);
    ghost var e4 := xml.events;
    xml.WriteAttribute("type", token.posTag);
    ghost var e5 := xml.events;
    xml.WriteAttribute("function", token.nerTag);
    ghost var e6 := xml.events;
    WordStartWritten(e2, token, e3, e4, e5, e6);
    ghost var head := g + open + WordStart(token);
    AppendAssoc(base, g, open);
    AppendAssoc(base, g + open, WordStart(token));
    newOffset := token.end;
    var content := Substring(text, tokenStart, newOffset);
    if content.None? {
      return newOffset, false;
    }
    WriteText(xml, content.value);
    xml.WriteEndElement();
    ghost var c := TextEvents(content.value);
    AppendAssoc(base, head, c);
    AppendAssoc(base, head + c, [EndElement]);
    ok := true;
  }

  /**
   * `writeAnnotated`, with the annotator's output passed in. Returns false where
   * Java's substring throws; the writer then holds exactly what was written before.
   */
  method WriteAnnotated(xml: XmlWriter, text: string, sentences: seq<Sentence>) returns (ok: bool)
    modifies xml
    ensures ok == AnnotatedEvents(text, sentences).ok
    ensures xml.events == old(xml.events) + AnnotatedEvents(text, sentences).events
  {
    var offset := 0;
    xml.WriteStartElement("ab");
    ghost var root := xml.events;
    for si := 0 to |sentences|
      invariant SentencesEvents(text, sentences[..si]).ok
      invariant offset == SentencesEvents(text, sentences[..si]).offset
      invariant xml.events == root + SentencesEvents(text, sentences[..si]).events
    {
      var sentence := sentences[si];
      var sentenceStarted := false;
      ghost var done := SentencesEvents(text, sentences[..si]);
      ghost var mark := xml.events;
      for ti := 0 to |sentence|
        invariant sentenceStarted == (ti > 0)
        invariant TokensEvents(text, done.offset, sentence[..ti]).ok
        invariant offset == TokensEvents(text, done.offset, sentence[..ti]).offset
        invariant xml.events == mark + TokensEvents(text, done.offset, sentence[..ti]).events
      {
        ghost var before := TokensEvents(text, done.offset, sentence[..ti]);
        TokensSnoc(text, done.offset, sentence, ti);
        ghost var step := TokenEvents(text, offset, sentence[ti], ti > 0);
        var tokenOk;
        offset, tokenOk := WriteToken(xml, text, offset, sentence[ti], sentenceStarted);
        sentenceStarted := true;
        AppendAssoc(mark, before.events, step.events);
        if !tokenOk {
          FailureInSentence(text, sentences, si, ti);
          AppendAssoc(old(xml.events), [StartElement("ab")], done.events);
          AppendAssoc(root, done.events, before.events + step.events);
          AppendAssoc(old(xml.events), [StartElement("ab")] + done.events, before.events + step.events);
          AppendAssoc([StartElement("ab")], done.events, before.events + step.events);
          return false;
        }
      }
      SentencesSnoc(text, sentences, si);
      assert sentence[..|sentence|] == sentence;
      ghost var tokens := TokensEvents(text, done.offset, sentence);
      if sentenceStarted {
        xml.WriteEndElement();
        AppendAssoc(root, done.events, tokens.events);
        AppendAssoc(root, done.events + tokens.events, [EndElement]);
        AppendAssoc(done.events, tokens.events, [EndElement]);
      } else {
        AppendAssoc(root, done.events, tokens.events);
      }
    }
    assert sentences[..|sentences|] == sentences;
    xml.WriteEndElement();
    ok := true;
  }
}
