# anonimizador — a Dafny model of the span reservation, merge and render engine

`anonimizador.py` anonymises Portuguese text. It finds personal data in two ways:

- a named-entity recogniser (spaCy), whose entity categories map to labels;
- eighteen regular-expression stages (CPF, RG, CNPJ, phone, e-mail, dates, addresses, names, organisations, IP addresses and six banking stages).

All detections pass through one reservation rule, `add_span_if_free`: a span joins the list only when it overlaps nothing already there. The first span to claim a range wins.

`anonimizar_texto` runs in two stages:

1. It submits the mapped entities to a fresh list.
2. It runs `find_regex_spans`, which keeps its own list and submits the stages in a fixed order. The survivors are then re-submitted, in their order, to the entity list.

The final spans are sorted by start, descending. Each one is spliced over the text as an inline `<span class=… title=…>LABEL</span>` marker, using the original offsets. The `title` explanation comes from one of two tables: `lei == "lgpd"` selects the LGPD table and any other value selects the GDPR table. Lookups fall back to "Dado pessoal sensível detectado." and to the class `anon`.

The model has these modules:

- `Spans` (spans.dfy)
  - The span datatype.
  - The overlap test.
  - `SpanList`: the mutable list, with the `add_span_if_free` loop as method `AddIfFree`.
  - `Merge`: its specification, a left fold over the submitted candidates.
  - The merge's invariants.
- `Labels` (labels.dfy)
  - The twelve labels with their source strings.
  - The entity-category mapping.
  - The two explanation tables and the class table, with their exact texts.
  - The fallbacks and the marker text.
- `Detection` (detection.dfy)
  - The eighteen stages in order with their labels.
  - `find_regex_spans` as a method over the stages' matches.
  - The two-stage merge as specification functions.
  - Lemmas about where each surviving span comes from.
- `Render` (render.dfy)
  - The stable descending sort.
  - The right-to-left splice.
  - A left-to-right reference build, proved equal to the splice.
  - What the output contains.
- `Anonymizer` (anonymizer.dfy)
  - `anonimizar_texto` as methods: the two merge loops, the splice loop, and the whole function.
- `Wrappers` (wrappers.dfy): `Option`.

## Model

| member | source | states |
|---|---|---|
| Spans.Clashes | anonimizador.py:10 | The source's negated test holds exactly when the two half-open ranges intersect: each starts before the other ends. |
| Spans.TryAdd | anonimizador.py:8-13 | One reservation call never removes or reorders an entry. It appends exactly one entry, the candidate itself, and does so exactly when the candidate's range is free. |
| Spans.SpanList.AddIfFree | anonimizador.py:8-13 | It answers true exactly when no listed span overlaps [start, end), under the source's overlap test. It appends exactly that triple when free and leaves the list untouched otherwise. It keeps the list pairwise non-overlapping. |
| Spans.TryAddKeepsNonOverlapping | anonimizador.py:8-13 | One reservation call keeps a non-overlapping list non-overlapping. |
| Spans.MergeKeepsNonOverlapping | anonimizador.py:8-13 | Any sequence of reservation calls keeps the list pairwise non-overlapping. |
| Spans.MergeExtends | anonimizador.py:8-13 | Nothing accepted is evicted: the starting list stays a prefix. Every later entry is a candidate that was free of the starting list. The accepted candidates keep their submission order. |
| Spans.MergeMembers | anonimizador.py:8-13 | Every entry of the result was already listed or is a submitted candidate. |
| Spans.MergeCovers | anonimizador.py:8-13 | After the merge, the range of every non-empty candidate is taken: the candidate was either accepted or blocked by an accepted span. |
| Spans.MergeAppend | anonimizador.py:17-88 | Submitting `a` and then `b` gives the same list as submitting `a + b`. |
| Labels.NerLabel | anonimizador.py:95-106 | A category yields a label exactly when it is PERSON, ORG, GPE, LOC or DATE, and the label is one of [NOME], [ORG], [LOC], [DATA]. Other categories are dropped. |
| Labels.SelectTable | anonimizador.py:114-143 | Either regime's table has exactly the twelve labels as keys. |
| Labels.RegimesExplainDifferently | anonimizador.py:115-142 | The LGPD and GDPR explanations of every label differ. |
| Labels.RegimeSelectsTable | anonimizador.py:114-143 | For every label, the explanation shown is its LGPD text exactly when `lei` is "lgpd", and its GDPR text exactly otherwise. |
| Labels.EveryLabelIsKnown | anonimizador.py:115-160 | Every label belongs to the key set the three tables share. |
| Labels.KnownLabelsNeverFallBack | anonimizador.py:147-163 | Every label finds its own explanation under either regime and its own display class, so the lookup never falls back. |
| Labels.Explain | anonimizador.py:147 | A label in the table gets its own explanation. A label missing from the table gets the fallback "Dado pessoal sensível detectado.". |
| Labels.Popup | anonimizador.py:164 | The marker opens with `<span class="` followed by the class. Right after the class comes `" title="` followed by the explanation. The marker closes with the label text followed by `</span>`. |
| Labels.Marker | anonimizador.py:147-164 | Every marker's class attribute begins with "anon", and every marker ends with its label's text and `</span>`, whichever table is used. |
| Labels.MarkerCarriesExplanation | anonimizador.py:147-164 | The marker's title attribute holds exactly the explanation the selected table gives the label, fallback included. |
| Labels.MarkerShowsRegime | anonimizador.py:114-164 | The title text inside a rendered marker is the label's LGPD explanation exactly when `lei` is "lgpd", and its GDPR explanation exactly otherwise. |
| Labels.CssClass | anonimizador.py:148-163 | Every display class begins with the fallback class "anon". |
| Labels.TextIsInjective | anonimizador.py:116-127 | Distinct labels are written differently, so a marker's text names its label. |
| Detection.StageLabel | anonimizador.py:17-88 | Every stage carries one label, and the label is [DADO_BANCARIO] exactly for the six banking stages. |
| Detection.NerCandidates | anonimizador.py:95-106 | Every span the entity loop submits has the offsets of some entity whose category maps to that span's label. The converse is Detection.NerCandidatesComplete. |
| Detection.NerCandidatesComplete | anonimizador.py:95-106 | Every entity whose category maps to a label is submitted by the entity loop, with its offsets and that label. |
| Detection.RegexCandidates | anonimizador.py:17-88 | Every span the first k stages submit is a match of one of those stages and carries that stage's label. The converse is Detection.RegexCandidatesComplete. |
| Detection.RegexCandidatesComplete | anonimizador.py:17-88 | Every match of each of the first k stages is submitted, with that stage's label. |
| Detection.SubmitStage | anonimizador.py:18-19 | One stage submits every match, in match order, to the list: the new list is the merge of the old list with the stage's candidates. |
| Detection.FindRegexSpans | anonimizador.py:15-90 | It returns the merge, into an empty list, of all stages' matches in the fixed stage order. |
| Detection.DetectShape | anonimizador.py:94-110 | The final list is the accepted entities, unchanged and in entity order, followed by an in-order selection of the `find_regex_spans` survivors. A regex candidate rejected inside `find_regex_spans` never returns. |
| Detection.NerSpanOrigin | anonimizador.py:95-106 | Every span accepted in the entity stage comes from a mapped entity, with its offsets and its mapped label. |
| Detection.RegexSpanOrigin | anonimizador.py:15-90 | Every span `find_regex_spans` returns is some stage's match, carrying that stage's label. |
| Detection.EntityRangeTaken | anonimizador.py:94-110 | The range of every non-empty entity whose category maps to a label is taken in the final list. |
| Detection.MatchRangeTaken | anonimizador.py:15-90 | The range of every non-empty match of every stage is taken in the list `find_regex_spans` returns. |
| Detection.DetectSeparated | anonimizador.py:94-110 | The `find_regex_spans` list and the final list are pairwise non-overlapping. The final spans are non-empty ranges of the text. |
| Detection.RegexCandidatesPrefix | anonimizador.py:17-88 | The candidates of the first k stages are a prefix of those of any later stage count. |
| Detection.EarlyStagesNotBanking | anonimizador.py:17-32 | No span accepted by the CPF through e-mail stages carries the banking label. |
| Detection.EmailRangeTaken | anonimizador.py:31-32 | After the e-mail stage, the range of every non-empty e-mail match is taken. |
| Detection.PixEmailStageAddsNothing | anonimizador.py:86-88 | The PIX e-mail stage reuses the e-mail pattern. When it sees the e-mail stage's matches, none of its non-empty candidates is accepted. |
| Detection.EmailBlocksPixEmail | anonimizador.py:31-88 | The PIX e-mail stage can never add a banking span over the range of an e-mail match. |
| Render.InsertDesc | anonimizador.py:112 | Insertion keeps the list sorted by start, descending, and adds exactly the one span. |
| Render.SortByStartDesc | anonimizador.py:112 | The sort result has non-increasing starts and is a permutation of its input. |
| Render.SortedSeparatedIsChain | anonimizador.py:112 | Sorting a separated in-bounds list gives strictly decreasing starts. Each span ends before the previous one starts. |
| Render.SortIsUnambiguous | anonimizador.py:112 | For a final span list, every permutation with non-increasing starts equals the sort's result, stable or not. |
| Render.Splice | anonimizador.py:165 | The text before the span is kept, the marker sits at the span's start, and the text after the span follows the marker. The length changes by the marker's length minus the span's. |
| Render.SpliceAllIsBuild | anonimizador.py:145-165 | Splicing right to left with the original offsets equals one left-to-right pass: original gaps interleaved with markers. |
| Render.BuildKeepsText | anonimizador.py:165 | A character outside every span is copied unchanged, shifted by the growth of the markers before it. |
| Render.BuildPlacesMarker | anonimizador.py:164-165 | Each non-empty span's range is replaced by its label's marker, at its start shifted by the growth of the markers before it. |
| Render.RenderedEmpty | anonimizador.py:145-167 | With no spans, the output is the input text. |
| Anonymizer.SpliceMarkers | anonimizador.py:145-165 | The splice loop returns the specification's right-to-left splice of every span's marker, with explanation and class looked up per span. |
| Anonymizer.Resubmit | anonimizador.py:109-110 | The re-submission loop leaves the list equal to its merge with the survivors, in their order. |
| Anonymizer.DetectSpans | anonimizador.py:94-110 | The two merge loops produce exactly the two-stage `Detect` list. |
| Anonymizer.Anonymize | anonimizador.py:92-167 | The detected spans are separated and in bounds. The output is the left-to-right rendering of `Detect(ents, matches)` with the markers of the table `lei` selects. With no spans the output is the text unchanged. `lei` does not occur in the span list. |

## Left out

- The named-entity recogniser (`nlp(texto)`) is not modelled. Its entities, as character offsets with a category, are an input.
- Regular-expression semantics are not modelled. Each stage's matches over the text are an input, already in match order. For the name and card-suffix stages, they are already narrowed to group 1.
- The Flask application, `app.py` and `app2.py` are not part of this model.
- Anonymizer.Anonymize: requires every entity and match to be a non-empty range of the text. The source does not check this. It holds because none of the eighteen patterns at anonimizador.py:18-87 can match the empty string, and a recogniser entity covers at least one token. The sort-uniqueness and splice lemmas depend on it.
- Render.SortByStartDesc: stability is built into the definition but not stated. For a final span list the starts are distinct, and Render.SortIsUnambiguous shows every descending order coincides.
- Labels are a closed datatype whose `Text` is the source's label string. Every table covers all twelve labels, so the `.get` fallbacks are modelled but unreachable, as in the source.
- Labels.NerLabel keeps the source's category names (PERSON, ORG, GPE, LOC, DATE). Which categories the Portuguese recogniser actually emits is outside the model. If it emits other names, such as PER or MISC, the entity stage drops those entities.
- Neither the source nor the model escapes HTML in the marker. The model does not add any escaping.
- Python's list aliasing is modelled by passing one `SpanList` object to the methods that update it in place.
