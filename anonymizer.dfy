/**
 * `anonimizar_texto` of anonimizador.py: detect, merge in two stages,
 * sort right to left and splice a marker over every accepted span.
 * The recognizer call `nlp(texto)` is replaced by its entities, passed in.
 */
module Anonymizer {
  import opened Spans
  import opened Detection
  import opened Render
  import Labels

  /** The marker each label becomes under the selected explanation table. */
  function MarkerOf(explanations: map<Labels.Label, string>): Labels.Label -> string {
    tag => Labels.Marker(tag, explanations)
  }

  /** The popup the splice loop builds for a label is that label's marker. */
  lemma PopupIsMarker(explanations: map<Labels.Label, string>, tag: Labels.Label)
    ensures Labels.Popup(tag, Labels.Explain(explanations, tag), Labels.CssClass(tag)) == MarkerOf(explanations)(tag)
  {
  }

  /** One turn of the splice loop: splicing the first span's marker leaves
      the rest of the spans to splice, with the same final text. */
  lemma SpliceStep(out: string, rest: seq<Span>, popup: string, marker: Labels.Label -> string)
    requires DescChain(rest, |out|) && rest != [] && popup == marker(rest[0].tag)
    ensures var sp := rest[0];
      0 <= sp.start <= sp.end <= |out| &&
      DescChain(rest[1..], |out[..sp.start] + popup + out[sp.end..]|) &&
      SpliceAll(out[..sp.start] + popup + out[sp.end..], rest[1..], marker) == SpliceAll(out, rest, marker)
  {
    assert out[..rest[0].start] + popup + out[rest[0].end..] == Splice(out, rest[0], marker);
  }

  /** The splice loop of `anonimizar_texto`: for each span, right to left,
      look up its explanation and class and splice the marker over its
      range of the text built so far. */
  method SpliceMarkers(text: string, desc: seq<Span>, explanations: map<Labels.Label, string>) returns (out: string)
    requires DescChain(desc, |text|)
    ensures out == SpliceAll(text, desc, MarkerOf(explanations))
  {
    ghost var marker := MarkerOf(explanations);
    out := text;
    for i := 0 to |desc|
      invariant DescChain(desc[i..], |out|)
      invariant SpliceAll(out, desc[i..], marker) == SpliceAll(text, desc, marker)
    {
      var sp := desc[i];
      var explanation := Labels.Explain(explanations, sp.tag);
      var cssClass := Labels.CssClass(sp.tag);
      var popup := Labels.Popup(sp.tag, explanation, cssClass);
      PopupIsMarker(explanations, sp.tag);
      assert desc[i..][0] == sp && desc[i..][1..] == desc[i + 1..];
      SpliceStep(out, desc[i..], popup, marker);
      out := out[..sp.start] + popup + out[sp.end..];
    }
    assert desc[|desc|..] == [];
  }

  /** The two merges of `anonimizar_texto`: the mapped entities submitted
      to a fresh list, then the survivors of `find_regex_spans` submitted
      to it in their order. */
  method DetectSpans(ents: seq<Entity>, matches: seq<seq<Match>>) returns (spans: seq<Span>)
    requires |matches| == |StageOrder|
    ensures spans == Detect(ents, matches)
  {
    var acc := new SpanList();
    for i := 0 to |ents|
      invariant acc.items == Merge([], NerCandidates(ents[..i]))
    {
      var tag := Labels.NerLabel(ents[i].category);
      assert ents[..i + 1][..i] == ents[..i];
      if tag.Some? {
        var added := acc.AddIfFree(ents[i].start, ents[i].end, tag.value);
        MergeSnoc([], NerCandidates(ents[..i]), Span(ents[i].start, ents[i].end, tag.value));
      }
    }
    assert ents[..|ents|] == ents;

    var regexSpans := FindRegexSpans(matches);
    Resubmit(acc, regexSpans);
    spans := acc.items;
  }

  /** The re-submission loop of `anonimizar_texto`: each regex survivor,
      in order, offered to the list the entities seeded. */
  method Resubmit(acc: SpanList, cands: seq<Span>)
    modifies acc
    ensures acc.items == Merge(old(acc.items), cands)
  {
    ghost var start := acc.items;
    for i := 0 to |cands|
      invariant acc.items == Merge(start, cands[..i])
    {
      var added := acc.AddIfFree(cands[i].start, cands[i].end, cands[i].tag);
      MergeSnoc(start, cands[..i], cands[i]);
      assert cands[..i + 1] == cands[..i] + [cands[i]];
    }
    assert cands[..|cands|] == cands;
  }

  /** `anonimizar_texto(texto, lei)` given the recognizer's entities and
      each pattern stage's matches over `texto`. The regime only picks the
      explanation table: the spans replaced are Detect(ents, matches)
      whatever `lei` is. */
  method Anonymize(text: string, lei: string, ents: seq<Entity>, matches: seq<seq<Match>>) returns (out: string)
    requires EntitiesInBounds(ents, |text|) && MatchesInBounds(matches, |text|)
    ensures Separated(Detect(ents, matches)) && InBounds(Detect(ents, matches), |text|)
    ensures out == Rendered(text, Detect(ents, matches), MarkerOf(Labels.SelectTable(lei)))
    ensures Detect(ents, matches) == [] ==> out == text
  {
    var spans := DetectSpans(ents, matches);
    DetectSeparated(ents, matches, |text|);
    var desc := SortByStartDesc(spans);
    SortedSeparatedIsChain(spans, desc, |text|);
    var explanations := Labels.SelectTable(lei);
    out := SpliceMarkers(text, desc, explanations);
    SpliceAllIsBuild(text, desc, MarkerOf(explanations));
    assert text[0..] == text;
  }
}
