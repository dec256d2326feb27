/**
 * The streaming XML writer the serializer talks to, seen as an append-only
 * sequence of events, and the structural notions (text content, nesting depth,
 * element skeleton) in which the serializer's laws are stated.
 */
module Markup {

  /** One call on the streaming writer. `EmptyLb` is the empty `lb` element. */
  datatype Event =
    | StartElement(name: string)
    | Attribute(key: string, value: string)
    | EndElement
    | Chars(run: string)
    | EmptyLb

  /** The writer: everything written so far, in order. Nothing is ever taken back. */
  class XmlWriter {
    var events: seq<Event>

    constructor ()
      ensures events == []
    {
      events := [];
    }

    method WriteStartElement(name: string)
      modifies this
      ensures events == old(events) + [StartElement(name)]
    {
      events := events + [StartElement(name)];
    }

    method WriteAttribute(key: string, value: string)
      modifies this
      ensures events == old(events) + [Attribute(key, value)]
    {
      events := events + [Attribute(key, value)];
    }

    method WriteEndElement()
      modifies this
      ensures events == old(events) + [EndElement]
    {
      events := events + [EndElement];
    }

    method WriteCharacters(run: string)
      modifies this
      ensures events == old(events) + [Chars(run)]
    {
      events := events + [Chars(run)];
    }

    method WriteEmptyLb()
      modifies this
      ensures events == old(events) + [EmptyLb]
    {
      events := events + [EmptyLb];
    }
  }

  /** The characters an event contributes to the document text; a line break reads as a newline. */
  function EventText(e: Event): string
  {
    match e
    case Chars(run) => run
    case EmptyLb => "\n"
    case _ => ""
  }

  /** The document text of an event stream: the runs in order, each `lb` read as a newline. */
  function TextOf(es: seq<Event>): string
  {
    if es == [] then "" else EventText(es[0]) + TextOf(es[1..])
  }

  lemma {:induction false} TextOfAppend(a: seq<Event>, b: seq<Event>)
    ensures TextOf(a + b) == TextOf(a) + TextOf(b)
  {
    if a != [] {
      assert (a + b)[1..] == a[1..] + b;
      TextOfAppend(a[1..], b);
    } else {
      assert a + b == b;
    }
  }

  lemma AppendAssoc(a: seq<Event>, b: seq<Event>, c: seq<Event>)
    ensures a + (b + c) == a + b + c
  {
  }

  /** How an event changes the number of open elements. */
  function Shift(e: Event): int
  {
    match e
    case StartElement(_) => 1
    case EndElement => -1
    case _ => 0
  }

  /** The number of elements left open after `es`. */
  function Depth(es: seq<Event>): int
  {
    if es == [] then 0 else Depth(es[..|es| - 1]) + Shift(es[|es| - 1])
  }

  function Min(a: int, b: int): int
  {
    if a <= b then a else b
  }

  /** The fewest elements open at any point of `es`, its start included. */
  function MinDepth(es: seq<Event>): int
  {
    if es == [] then 0 else Min(MinDepth(es[..|es| - 1]), Depth(es))
  }

  /** Every end closes an element opened before it, and every element opened is closed. */
  ghost predicate Balanced(es: seq<Event>)
  {
    Depth(es) == 0 && MinDepth(es) >= 0
  }

  /** Events that neither open nor close an element. */
  ghost predicate Flat(es: seq<Event>)
  {
    forall i :: 0 <= i < |es| ==> Shift(es[i]) == 0
  }

  /** A single element that encloses everything else in the stream. */
  ghost predicate Rooted(es: seq<Event>)
  {
    |es| >= 2 && es[0].StartElement? && es[|es| - 1] == EndElement && Balanced(es[1..|es| - 1])
  }

  /** No character event is empty. */
  ghost predicate NoEmptyRuns(es: seq<Event>)
  {
    forall i :: 0 <= i < |es| && es[i].Chars? ==> es[i].run != []
  }

  lemma NoEmptyRunsAppend(a: seq<Event>, b: seq<Event>)
    requires NoEmptyRuns(a) && NoEmptyRuns(b)
    ensures NoEmptyRuns(a + b)
  {
    forall i | 0 <= i < |a + b| && (a + b)[i].Chars?
      ensures (a + b)[i].run != []
    {
      if i >= |a| {
        assert (a + b)[i] == b[i - |a|];
      }
    }
  }

  lemma {:induction false} DepthAppend(a: seq<Event>, b: seq<Event>)
    ensures Depth(a + b) == Depth(a) + Depth(b)
  {
    if b != [] {
      var b' := b[..|b| - 1];
      assert (a + b)[..|a + b| - 1] == a + b';
      DepthAppend(a, b');
    } else {
      assert a + b == a;
    }
  }

  lemma {:induction false} FlatDepth(es: seq<Event>)
    requires Flat(es)
    ensures Depth(es) == 0 && MinDepth(es) == 0
  {
    if es != [] {
      FlatDepth(es[..|es| - 1]);
    }
  }

  /** MinDepth is a lower bound of the depth after every prefix... */
  lemma {:induction false} MinDepthIsLowest(es: seq<Event>, k: nat)
    requires k <= |es|
    ensures MinDepth(es) <= Depth(es[..k])
    decreases |es|
  {
    if k == |es| {
      assert es[..k] == es;
    } else {
      var init := es[..|es| - 1];
      MinDepthIsLowest(init, k);
      assert init[..k] == es[..k];
    }
  }

  /** ...and the depth after some prefix attains it. */
  lemma {:induction false} MinDepthIsReached(es: seq<Event>) returns (k: nat)
    ensures k <= |es| && Depth(es[..k]) == MinDepth(es)
    decreases |es|
  {
    if es == [] {
      k := 0;
    } else {
      var init := es[..|es| - 1];
      if MinDepth(init) <= Depth(es) {
        k := MinDepthIsReached(init);
        assert init[..k] == es[..k];
      } else {
        k := |es|;
        assert es[..k] == es;
      }
    }
  }

  /** Balanced in the usual sense: no prefix closes more than it opened, and the whole closes all. */
  lemma BalancedIff(es: seq<Event>)
    ensures Balanced(es) <==> Depth(es) == 0 && forall k :: 0 <= k <= |es| ==> Depth(es[..k]) >= 0
  {
    if Balanced(es) {
      forall k | 0 <= k <= |es|
        ensures Depth(es[..k]) >= 0
      {
        MinDepthIsLowest(es, k);
      }
    }
    var k := MinDepthIsReached(es);
  }

  lemma {:induction false} MinDepthAppend(a: seq<Event>, b: seq<Event>)
    ensures MinDepth(a + b) == Min(MinDepth(a), Depth(a) + MinDepth(b))
    decreases |b|
  {
    if b == [] {
      assert a + b == a;
      MinDepthIsLowest(a, |a|);
      assert a[..|a|] == a;
    } else {
      var b' := b[..|b| - 1];
      assert (a + b)[..|a + b| - 1] == a + b';
      MinDepthAppend(a, b');
      DepthAppend(a, b);
    }
  }

  lemma FlatBalanced(es: seq<Event>)
    requires Flat(es)
    ensures Balanced(es)
  {
    FlatDepth(es);
  }

  lemma BalancedAppend(a: seq<Event>, b: seq<Event>)
    requires Balanced(a) && Balanced(b)
    ensures Balanced(a + b)
  {
    DepthAppend(a, b);
    MinDepthAppend(a, b);
  }

  lemma SingleDepth(e: Event)
    ensures Depth([e]) == Shift(e) && MinDepth([e]) == Min(0, Shift(e))
  {
    assert [e][..0] == [];
  }

  /** Wrapping balanced content in one element gives a balanced stream with that element as root. */
  lemma Wrap(name: string, inner: seq<Event>)
    requires Balanced(inner)
    ensures Rooted([StartElement(name)] + inner + [EndElement])
    ensures Balanced([StartElement(name)] + inner + [EndElement])
  {
    var open: seq<Event> := [StartElement(name)];
    var es := open + inner + [EndElement];
    assert es[1..|es| - 1] == inner;
    SingleDepth(StartElement(name));
    SingleDepth(EndElement);
    DepthAppend(open, inner);
    MinDepthAppend(open, inner);
    DepthAppend(open + inner, [EndElement]);
    MinDepthAppend(open + inner, [EndElement]);
  }

  /** The root element is open at every point strictly between its start and its end. */
  lemma RootEnclosesAll(es: seq<Event>)
    requires Rooted(es)
    ensures Balanced(es)
    ensures forall k :: 1 <= k < |es| ==> Depth(es[..k]) >= 1
  {
    var inner := es[1..|es| - 1];
    assert es == [es[0]] + inner + [EndElement];
    Wrap(es[0].name, inner);
    SingleDepth(es[0]);
    forall k | 1 <= k < |es|
      ensures Depth(es[..k]) >= 1
    {
      assert es[..k] == [es[0]] + inner[..k - 1];
      DepthAppend([es[0]], inner[..k - 1]);
      MinDepthIsLowest(inner, k - 1);
    }
  }

  /** The element skeleton: starts, attributes and ends, with character content and line breaks removed. */
  function Elements(es: seq<Event>): seq<Event>
  {
    if es == [] then []
    else (if es[0].Chars? || es[0].EmptyLb? then [] else [es[0]]) + Elements(es[1..])
  }

  lemma {:induction false} ElementsAppend(a: seq<Event>, b: seq<Event>)
    ensures Elements(a + b) == Elements(a) + Elements(b)
  {
    if a != [] {
      assert (a + b)[1..] == a[1..] + b;
      ElementsAppend(a[1..], b);
    } else {
      assert a + b == b;
    }
  }

  /** How often `e` occurs in `es`. */
  function Occurrences(es: seq<Event>, e: Event): nat
  {
    if es == [] then 0 else (if es[0] == e then 1 else 0) + Occurrences(es[1..], e)
  }

  lemma {:induction false} OccurrencesAppend(a: seq<Event>, b: seq<Event>, e: Event)
    ensures Occurrences(a + b, e) == Occurrences(a, e) + Occurrences(b, e)
  {
    if a != [] {
      assert (a + b)[1..] == a[1..] + b;
      OccurrencesAppend(a[1..], b, e);
    } else {
      assert a + b == b;
    }
  }

  /** Dropping character content and line breaks never drops an element start. */
  lemma {:induction false} ElementsKeepStarts(es: seq<Event>, name: string)
    ensures Occurrences(Elements(es), StartElement(name)) == Occurrences(es, StartElement(name))
  {
    if es != [] {
      ElementsKeepStarts(es[1..], name);
      var head := if es[0].Chars? || es[0].EmptyLb? then [] else [es[0]];
      OccurrencesAppend(head, Elements(es[1..]), StartElement(name));
    }
  }

  lemma SingleContents(e: Event)
    ensures Elements([e]) == (if e.Chars? || e.EmptyLb? then [] else [e])
    ensures TextOf([e]) == EventText(e)
  {
    assert [e][1..] == [];
  }

  /** Wrapping events in an element adds only its start and end to the skeleton... */
  lemma WrapElements(name: string, inner: seq<Event>)
    ensures Elements([StartElement(name)] + inner + [EndElement]) ==
      [StartElement(name)] + Elements(inner) + [EndElement]
  {
    SingleContents(StartElement(name));
    SingleContents(EndElement);
    ElementsAppend([StartElement(name)], inner);
    ElementsAppend([StartElement(name)] + inner, [EndElement]);
  }

  /** ...and nothing to the text. */
  lemma WrapText(name: string, inner: seq<Event>)
    ensures TextOf([StartElement(name)] + inner + [EndElement]) == TextOf(inner)
  {
    SingleContents(StartElement(name));
    SingleContents(EndElement);
    TextOfAppend([StartElement(name)], inner);
    TextOfAppend([StartElement(name)] + inner, [EndElement]);
  }

  lemma WrapRuns(name: string, inner: seq<Event>)
    requires NoEmptyRuns(inner)
    ensures NoEmptyRuns([StartElement(name)] + inner + [EndElement])
  {
    NoEmptyRunsAppend([StartElement(name)], inner);
    NoEmptyRunsAppend([StartElement(name)] + inner, [EndElement]);
  }
}
