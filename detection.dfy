/**
 * Detection in anonimizador.py: the pattern stages of `find_regex_spans`
 * submitted in their fixed order to one reservation list, and the
 * recognizer's entities submitted to a second list that the regex
 * survivors are then re-submitted to.
 *
 * Pattern matching and the recognizer are not modelled: each stage's
 * matches and the recognizer's entities are inputs.
 */
module Detection {
  import opened Wrappers
  import opened Spans
  import Labels

  /** An entity of the recognizer: character offsets and its category (`ent.label_`). */
  datatype Entity = Entity(start: int, end: int, category: string)

  /** The offsets one pattern stage submits for one match (group 1 for the
      name and card-suffix stages, the whole match for the others). */
  datatype Match = Match(start: int, end: int)

  /** The pattern stages of `find_regex_spans`. */
  datatype Stage =
    | Cpf | Rg | Cnpj | Phone | Email | NumericDate | TextualDate
    | Address | Name | Organization | IPv4 | IPv6
    | CardSuffix | CardNumber | BranchOrAccount | PixUuid | PixPhone | PixEmail

  /** The order in which the stages submit their matches: it is the priority order. */
  const StageOrder: seq<Stage> := [
    Cpf, Rg, Cnpj, Phone, Email, NumericDate, TextualDate,
    Address, Name, Organization, IPv4, IPv6,
    CardSuffix, CardNumber, BranchOrAccount, PixUuid, PixPhone, PixEmail
  ]

  /** Position of the e-mail stage and of the PIX e-mail stage in StageOrder. */
  const EmailIndex := 4
  const PixEmailIndex := 17

  function StageLabel(st: Stage): (tag: Labels.Label)
    ensures tag == Labels.DadoBancario <==> st in {CardSuffix, CardNumber, BranchOrAccount, PixUuid, PixPhone, PixEmail}
  {
    match st
    case Cpf => Labels.Cpf
    case Rg => Labels.Rg
    case Cnpj => Labels.Cnpj
    case Phone => Labels.Telefone
    case Email => Labels.Email
    case NumericDate => Labels.Data
    case TextualDate => Labels.Data
    case Address => Labels.Endereco
    case Name => Labels.Nome
    case Organization => Labels.Org
    case IPv4 => Labels.Ip
    case IPv6 => Labels.Ip
    case CardSuffix => Labels.DadoBancario
    case CardNumber => Labels.DadoBancario
    case BranchOrAccount => Labels.DadoBancario
    case PixUuid => Labels.DadoBancario
    case PixPhone => Labels.DadoBancario
    case PixEmail => Labels.DadoBancario
  }

  /** Every entity is a non-empty range of a text of length n. */
  predicate EntitiesInBounds(ents: seq<Entity>, n: int) {
    forall i :: 0 <= i < |ents| ==> 0 <= ents[i].start < ents[i].end <= n
  }

  /** One match sequence per stage, each match a non-empty range of a text of length n. */
  predicate MatchesInBounds(matches: seq<seq<Match>>, n: int) {
    |matches| == |StageOrder| &&
    forall k, j :: 0 <= k < |matches| && 0 <= j < |matches[k]| ==>
      0 <= matches[k][j].start < matches[k][j].end <= n
  }

  /** The spans the entity loop submits: mapped entities only, in entity order. */
  function NerCandidates(ents: seq<Entity>): (cands: seq<Span>)
    ensures forall x :: x in cands ==>
      exists e :: e in ents && Labels.NerLabel(e.category) == Some(x.tag) && e.start == x.start && e.end == x.end
    decreases |ents|
  {
    if ents == [] then []
    else
      var e := ents[|ents| - 1];
      var front := NerCandidates(ents[..|ents| - 1]);
      assert forall x :: x in ents[..|ents| - 1] ==> x in ents;
      match Labels.NerLabel(e.category)
      case Some(tag) => front + [Span(e.start, e.end, tag)]
      case None => front
  }

  /** The spans one stage submits: each match with the stage's label. */
  function StageCandidates(ms: seq<Match>, tag: Labels.Label): seq<Span> {
    seq(|ms|, j requires 0 <= j < |ms| => Span(ms[j].start, ms[j].end, tag))
  }

  /** The spans the first k stages submit, in submission order. */
  function RegexCandidates(matches: seq<seq<Match>>, k: nat): (cands: seq<Span>)
    requires k <= |matches| <= |StageOrder|
    ensures forall x :: x in cands ==>
      exists s, j :: 0 <= s < k && 0 <= j < |matches[s]| &&
        x == Span(matches[s][j].start, matches[s][j].end, StageLabel(StageOrder[s]))
  {
    if k == 0 then []
    else
      var front := RegexCandidates(matches, k - 1);
      var last := StageCandidates(matches[k - 1], StageLabel(StageOrder[k - 1]));
      assert forall x :: x in last ==> exists j :: 0 <= j < |matches[k - 1]| && x == last[j];
      front + last
  }

  /** What `find_regex_spans` returns. */
  function RegexSpans(matches: seq<seq<Match>>): seq<Span>
    requires |matches| == |StageOrder|
  {
    Merge([], RegexCandidates(matches, |StageOrder|))
  }

  /** The list after the entity loop of `anonimizar_texto`. */
  function NerSpans(ents: seq<Entity>): seq<Span> {
    Merge([], NerCandidates(ents))
  }

  /** The final span list of `anonimizar_texto`: the regex survivors
      re-submitted, in their order, to the list the entities seeded. */
  function Detect(ents: seq<Entity>, matches: seq<seq<Match>>): seq<Span>
    requires |matches| == |StageOrder|
  {
    Merge(NerSpans(ents), RegexSpans(matches))
  }

  /** One stage of `find_regex_spans`: each match, in match order, submitted to the list. */
  method SubmitStage(acc: SpanList, ms: seq<Match>, tag: Labels.Label)
    modifies acc
    ensures acc.items == Merge(old(acc.items), StageCandidates(ms, tag))
  {
    ghost var start := acc.items;
    ghost var cands := StageCandidates(ms, tag);
    for j := 0 to |ms|
      invariant acc.items == Merge(start, cands[..j])
    {
      var added := acc.AddIfFree(ms[j].start, ms[j].end, tag);
      MergeSnoc(start, cands[..j], cands[j]);
      assert cands[..j + 1] == cands[..j] + [cands[j]];
    }
    assert cands[..|ms|] == cands;
  }

  /** `find_regex_spans`: one reservation list, every stage's matches submitted in stage order. */
  method FindRegexSpans(matches: seq<seq<Match>>) returns (spans: seq<Span>)
    requires |matches| == |StageOrder|
    ensures spans == RegexSpans(matches)
  {
    var acc := new SpanList();
    for k := 0 to |StageOrder|
      invariant acc.items == Merge([], RegexCandidates(matches, k))
    {
      var tag := StageLabel(StageOrder[k]);
      SubmitStage(acc, matches[k], tag);
      MergeAppend([], RegexCandidates(matches, k), StageCandidates(matches[k], tag));
      assert RegexCandidates(matches, k + 1) == RegexCandidates(matches, k) + StageCandidates(matches[k], tag);
    }
    spans := acc.items;
  }

  /** The final list is the accepted entities, in entity order, followed by
      regex survivors in their `find_regex_spans` order: nothing the entity
      loop accepted is evicted, and no regex candidate rejected inside
      `find_regex_spans` comes back. */
  lemma DetectShape(ents: seq<Entity>, matches: seq<seq<Match>>)
    requires |matches| == |StageOrder|
    ensures var d, n := Detect(ents, matches), NerSpans(ents);
      |n| <= |d| && d[..|n|] == n &&
      IsSubsequence(n, NerCandidates(ents)) &&
      IsSubsequence(d[|n|..], RegexSpans(matches)) &&
      IsSubsequence(RegexSpans(matches), RegexCandidates(matches, |StageOrder|))
  {
    MergeExtends([], NerCandidates(ents));
    MergeExtends([], RegexCandidates(matches, |StageOrder|));
    MergeExtends(NerSpans(ents), RegexSpans(matches));
    assert NerSpans(ents)[0..] == NerSpans(ents);
    assert RegexSpans(matches)[0..] == RegexSpans(matches);
  }

  /** Every span the entity loop accepts comes from a mapped entity, with its offsets and the mapped label. */
  lemma NerSpanOrigin(ents: seq<Entity>)
    ensures forall x :: x in NerSpans(ents) ==>
      x.tag in {Labels.Nome, Labels.Org, Labels.Loc, Labels.Data} &&
      exists e :: e in ents && Labels.NerLabel(e.category) == Some(x.tag) && e.start == x.start && e.end == x.end
  {
    MergeMembers([], NerCandidates(ents));
  }

  /** Every span `find_regex_spans` returns is a match of some stage, carrying that stage's label. */
  lemma RegexSpanOrigin(matches: seq<seq<Match>>)
    requires |matches| == |StageOrder|
    ensures forall x :: x in RegexSpans(matches) ==>
      exists s, j :: 0 <= s < |StageOrder| && 0 <= j < |matches[s]| &&
        x == Span(matches[s][j].start, matches[s][j].end, StageLabel(StageOrder[s]))
  {
    MergeMembers([], RegexCandidates(matches, |StageOrder|));
  }

  /** Every entity whose category maps to a label is submitted by the entity
      loop, with its offsets and that label. */
  lemma {:induction false} NerCandidatesComplete(ents: seq<Entity>, i: nat)
    requires i < |ents| && Labels.NerLabel(ents[i].category).Some?
    ensures Span(ents[i].start, ents[i].end, Labels.NerLabel(ents[i].category).value) in NerCandidates(ents)
    decreases |ents|
  {
    var front := ents[..|ents| - 1];
    if i < |ents| - 1 {
      NerCandidatesComplete(front, i);
      assert front[i] == ents[i];
    }
  }

  /** Every match of each of the first k stages is submitted, with that stage's label. */
  lemma {:induction false} RegexCandidatesComplete(matches: seq<seq<Match>>, k: nat, s: nat, j: nat)
    requires k <= |matches| <= |StageOrder| && s < k && j < |matches[s]|
    ensures Span(matches[s][j].start, matches[s][j].end, StageLabel(StageOrder[s])) in RegexCandidates(matches, k)
    decreases k
  {
    if s < k - 1 {
      RegexCandidatesComplete(matches, k - 1, s, j);
    } else {
      var last := StageCandidates(matches[k - 1], StageLabel(StageOrder[k - 1]));
      assert last[j] == Span(matches[s][j].start, matches[s][j].end, StageLabel(StageOrder[s]));
    }
  }

  /** Every non-empty entity whose category maps to a label has its range
      taken in the final list: the entity loop runs first, and what it
      accepts is never evicted. */
  lemma EntityRangeTaken(ents: seq<Entity>, matches: seq<seq<Match>>, i: nat)
    requires |matches| == |StageOrder| && i < |ents| && Labels.NerLabel(ents[i].category).Some?
    requires ents[i].start < ents[i].end
    ensures !IsFree(Detect(ents, matches), ents[i].start, ents[i].end)
  {
    var e := ents[i];
    var n := NerSpans(ents);
    NerCandidatesComplete(ents, i);
    MergeCovers([], NerCandidates(ents));
    assert !IsFree(n, e.start, e.end);
    var k :| 0 <= k < |n| && Clashes(n[k], e.start, e.end);
    MergeExtends(n, RegexSpans(matches));
    assert Detect(ents, matches)[k] == n[k];
  }

  /** Every non-empty match of every stage has its range taken in the list
      `find_regex_spans` returns. */
  lemma MatchRangeTaken(matches: seq<seq<Match>>, s: nat, j: nat)
    requires |matches| == |StageOrder| && s < |StageOrder| && j < |matches[s]|
    requires matches[s][j].start < matches[s][j].end
    ensures !IsFree(RegexSpans(matches), matches[s][j].start, matches[s][j].end)
  {
    RegexCandidatesComplete(matches, |StageOrder|, s, j);
    MergeCovers([], RegexCandidates(matches, |StageOrder|));
  }

  /** Both lists, and the final one, are pairwise non-overlapping, and the
      final spans are non-empty ranges of the text. */
  lemma DetectSeparated(ents: seq<Entity>, matches: seq<seq<Match>>, n: int)
    requires EntitiesInBounds(ents, n) && MatchesInBounds(matches, n)
    ensures NonOverlapping(RegexSpans(matches))
    ensures NonOverlapping(Detect(ents, matches)) && InBounds(Detect(ents, matches), n)
  {
    MergeKeepsNonOverlapping([], RegexCandidates(matches, |StageOrder|));
    MergeKeepsNonOverlapping([], NerCandidates(ents));
    MergeKeepsNonOverlapping(NerSpans(ents), RegexSpans(matches));
    NerSpanOrigin(ents);
    RegexSpanOrigin(matches);
    var d := Detect(ents, matches);
    MergeMembers(NerSpans(ents), RegexSpans(matches));
    forall i | 0 <= i < |d| ensures 0 <= d[i].start < d[i].end <= n {
      assert d[i] in d;
      if d[i] in NerSpans(ents) {
        var e :| e in ents && Labels.NerLabel(e.category) == Some(d[i].tag) && e.start == d[i].start && e.end == d[i].end;
      } else {
        var s, j :| 0 <= s < |StageOrder| && 0 <= j < |matches[s]| &&
          d[i] == Span(matches[s][j].start, matches[s][j].end, StageLabel(StageOrder[s]));
      }
    }
  }

  /** The first k stages' candidates are a prefix of the first k2 stages' candidates. */
  lemma {:induction false} RegexCandidatesPrefix(matches: seq<seq<Match>>, k: nat, k2: nat)
    requires k <= k2 <= |matches| <= |StageOrder|
    ensures var a, b := RegexCandidates(matches, k), RegexCandidates(matches, k2);
      |a| <= |b| && b[..|a|] == a
    decreases k2
  {
    if k < k2 {
      RegexCandidatesPrefix(matches, k, k2 - 1);
    }
  }

  /** Every label of the first five stages (CPF to e-mail) is not the banking label. */
  lemma {:induction false} EarlyStagesNotBanking(matches: seq<seq<Match>>)
    requires |matches| == |StageOrder|
    ensures forall x :: x in Merge([], RegexCandidates(matches, EmailIndex + 1)) ==> x.tag != Labels.DadoBancario
  {
    var p := RegexCandidates(matches, EmailIndex + 1);
    MergeMembers([], p);
    forall x | x in p ensures x.tag != Labels.DadoBancario {
      var s, j :| 0 <= s < EmailIndex + 1 && 0 <= j < |matches[s]| &&
        x == Span(matches[s][j].start, matches[s][j].end, StageLabel(StageOrder[s]));
      assert StageOrder[s] in {Cpf, Rg, Cnpj, Phone, Email};
    }
  }

  /** After the e-mail stage, the range of every non-empty e-mail match is taken. */
  lemma EmailRangeTaken(matches: seq<seq<Match>>, j: nat)
    requires |matches| == |StageOrder| && j < |matches[EmailIndex]|
    requires matches[EmailIndex][j].start < matches[EmailIndex][j].end
    ensures !IsFree(Merge([], RegexCandidates(matches, EmailIndex + 1)), matches[EmailIndex][j].start, matches[EmailIndex][j].end)
  {
    var m := matches[EmailIndex][j];
    var pre := RegexCandidates(matches, EmailIndex + 1);
    var emailCand := Span(m.start, m.end, Labels.Email);
    assert StageCandidates(matches[EmailIndex], Labels.Email)[j] == emailCand;
    assert emailCand in pre;
    MergeCovers([], pre);
  }

  /** An e-mail match always blocks the identical match of the PIX e-mail
      stage: no span with those offsets and the banking label survives
      `find_regex_spans`. */
  lemma EmailBlocksPixEmail(matches: seq<seq<Match>>, j: nat)
    requires |matches| == |StageOrder| && j < |matches[EmailIndex]|
    requires matches[EmailIndex][j].start < matches[EmailIndex][j].end
    ensures Span(matches[EmailIndex][j].start, matches[EmailIndex][j].end, Labels.DadoBancario) !in RegexSpans(matches)
  {
    var m := matches[EmailIndex][j];
    var all := RegexCandidates(matches, |StageOrder|);
    var pre := RegexCandidates(matches, EmailIndex + 1);
    RegexCandidatesPrefix(matches, EmailIndex + 1, |StageOrder|);
    var post := all[|pre|..];
    assert all == pre + post;
    MergeAppend([], pre, post);
    var a := Merge([], pre);
    EmailRangeTaken(matches, j);
    EarlyStagesNotBanking(matches);
    var r := RegexSpans(matches);
    assert r == Merge(a, post);
    MergeExtends(a, post);
    forall i | 0 <= i < |r| ensures r[i] != Span(m.start, m.end, Labels.DadoBancario) {
      if i < |a| {
        assert r[i] == a[i] && a[i] in a;
      } else {
        assert IsFree(a, r[i].start, r[i].end);
      }
    }
  }

  /** The PIX e-mail stage runs the e-mail stage's pattern again, so it
      sees the same matches; then none of its non-empty candidates is
      accepted, since the e-mail stage has already taken each one's range. */
  lemma PixEmailStageAddsNothing(matches: seq<seq<Match>>)
    requires |matches| == |StageOrder| && matches[PixEmailIndex] == matches[EmailIndex]
    ensures forall x :: x in StageCandidates(matches[PixEmailIndex], StageLabel(StageOrder[PixEmailIndex])) && x.start < x.end ==>
      x !in RegexSpans(matches)
  {
    var ms := matches[PixEmailIndex];
    forall x | x in StageCandidates(ms, Labels.DadoBancario) && x.start < x.end
      ensures x !in RegexSpans(matches)
    {
      var j :| 0 <= j < |ms| && StageCandidates(ms, Labels.DadoBancario)[j] == x;
      EmailBlocksPixEmail(matches, j);
    }
  }
}
