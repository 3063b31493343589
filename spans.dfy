/**
 * Spans and the first-come-wins reservation of anonimizador.py
 * (`add_span_if_free`). A span list is a Python list of
 * `(start, end, label)` triples that the detectors append to in place.
 */
module Spans {
  import Labels

  /** A half-open character range [start, end) of the text, tagged with a label such as "[CPF]". */
  datatype Span = Span(start: int, end: int, tag: Labels.Label)

  /** The overlap test of `add_span_if_free`: the existing span `sp` and
      the range [start, end) overlap unless one ends before the other starts. */
  predicate Clashes(sp: Span, start: int, end: int)
    ensures Clashes(sp, start, end) <==> sp.start < end && start < sp.end
  {
    !(end <= sp.start || start >= sp.end)
  }

  predicate Overlaps(a: Span, b: Span) {
    Clashes(a, b.start, b.end)
  }

  /** No span already in `spans` overlaps the range [start, end). */
  predicate IsFree(spans: seq<Span>, start: int, end: int) {
    forall i :: 0 <= i < |spans| ==> !Clashes(spans[i], start, end)
  }

  /** The invariant every reservation list keeps: no two entries overlap. */
  predicate NonOverlapping(spans: seq<Span>) {
    forall i, j :: 0 <= i < j < |spans| ==> !Overlaps(spans[i], spans[j])
  }

  /** Every entry is a non-empty range of a text of length n. */
  predicate InBounds(spans: seq<Span>, n: int) {
    forall i :: 0 <= i < |spans| ==> 0 <= spans[i].start < spans[i].end <= n
  }

  /** The list after one `add_span_if_free` call. */
  function TryAdd(spans: seq<Span>, c: Span): (r: seq<Span>)
    ensures |spans| <= |r| <= |spans| + 1 && r[..|spans|] == spans
    ensures |r| == |spans| + 1 <==> IsFree(spans, c.start, c.end)
    ensures |r| == |spans| + 1 ==> r[|spans|] == c
  {
    if IsFree(spans, c.start, c.end) then spans + [c] else spans
  }

  /** The list after submitting every candidate of `cands`, in order, to
      `add_span_if_free`, starting from `acc`. Defined from the last
      candidate so that it follows a loop over `cands` step by step. */
  function Merge(acc: seq<Span>, cands: seq<Span>): seq<Span>
    decreases |cands|
  {
    if cands == [] then acc
    else TryAdd(Merge(acc, cands[..|cands| - 1]), cands[|cands| - 1])
  }

  /** `xs` is `ys` with some entries left out and the rest in their order. */
  predicate IsSubsequence(xs: seq<Span>, ys: seq<Span>)
    decreases |ys|
  {
    if xs == [] then true
    else if ys == [] then false
    else (xs[|xs| - 1] == ys[|ys| - 1] && IsSubsequence(xs[..|xs| - 1], ys[..|ys| - 1]))
         || IsSubsequence(xs, ys[..|ys| - 1])
  }

  lemma TryAddKeepsNonOverlapping(spans: seq<Span>, c: Span)
    requires NonOverlapping(spans)
    ensures NonOverlapping(TryAdd(spans, c))
  {
    var r := TryAdd(spans, c);
    if IsFree(spans, c.start, c.end) {
      forall i, j | 0 <= i < j < |r| ensures !Overlaps(r[i], r[j]) {
        if j == |spans| {
          assert r[i] == spans[i] && r[j] == c;
        }
      }
    }
  }

  /** Submitting any candidates keeps a list pairwise non-overlapping. */
  lemma {:induction false} MergeKeepsNonOverlapping(acc: seq<Span>, cands: seq<Span>)
    requires NonOverlapping(acc)
    ensures NonOverlapping(Merge(acc, cands))
    decreases |cands|
  {
    if cands != [] {
      MergeKeepsNonOverlapping(acc, cands[..|cands| - 1]);
      TryAddKeepsNonOverlapping(Merge(acc, cands[..|cands| - 1]), cands[|cands| - 1]);
    }
  }

  /** Nothing accepted is ever evicted: `acc` stays a prefix; each later
      entry is a candidate that was free of all of `acc`; the later entries
      keep the candidates' order. */
  lemma {:induction false} MergeExtends(acc: seq<Span>, cands: seq<Span>)
    ensures var r := Merge(acc, cands);
      |acc| <= |r| && r[..|acc|] == acc &&
      (forall i :: |acc| <= i < |r| ==> r[i] in cands && IsFree(acc, r[i].start, r[i].end)) &&
      IsSubsequence(r[|acc|..], cands)
    decreases |cands|
  {
    if cands != [] {
      var front, c := cands[..|cands| - 1], cands[|cands| - 1];
      MergeExtends(acc, front);
      var p := Merge(acc, front);
      assert cands[..|cands| - 1] == front;
      if IsFree(p, c.start, c.end) {
        var r := p + [c];
        assert r[|acc|..] == p[|acc|..] + [c];
        assert (p[|acc|..] + [c])[..|p[|acc|..]|] == p[|acc|..];
        forall i | |acc| <= i < |r| ensures r[i] in cands && IsFree(acc, r[i].start, r[i].end) {
          if i == |p| {
            forall k | 0 <= k < |acc| ensures !Clashes(acc[k], c.start, c.end) {
              assert acc[k] == p[k];
            }
          } else {
            assert r[i] == p[i] && p[i] in front;
          }
        }
      } else {
        forall i | |acc| <= i < |p| ensures p[i] in cands {
          assert p[i] in front;
        }
      }
    }
  }

  /** Every entry of a merge is an entry of `acc` or one of the candidates. */
  lemma MergeMembers(acc: seq<Span>, cands: seq<Span>)
    ensures forall x :: x in Merge(acc, cands) ==> x in acc || x in cands
  {
    var r := Merge(acc, cands);
    MergeExtends(acc, cands);
    forall x | x in r ensures x in acc || x in cands {
      var i :| 0 <= i < |r| && r[i] == x;
      if i < |acc| {
        assert r[..|acc|][i] == x;
      }
    }
  }

  /** Greedy coverage: after the merge every non-empty candidate overlaps
      some accepted span (itself when it was accepted, its blocker when not). */
  lemma {:induction false} MergeCovers(acc: seq<Span>, cands: seq<Span>)
    ensures forall c :: c in cands && c.start < c.end ==> !IsFree(Merge(acc, cands), c.start, c.end)
    decreases |cands|
  {
    if cands != [] {
      var front, last := cands[..|cands| - 1], cands[|cands| - 1];
      var p := Merge(acc, front);
      var r := Merge(acc, cands);
      MergeCovers(acc, front);
      assert r == TryAdd(p, last);
      assert r[..|p|] == p;
      forall c | c in cands && c.start < c.end ensures !IsFree(r, c.start, c.end) {
        if c in front {
          var k :| 0 <= k < |p| && Clashes(p[k], c.start, c.end);
          assert r[k] == p[k];
        } else if IsFree(p, last.start, last.end) {
          assert r[|p|] == c;
        } else {
          var k :| 0 <= k < |p| && Clashes(p[k], c.start, c.end);
          assert r[k] == p[k];
        }
      }
    }
  }

  /** Submitting one more candidate is one more `add_span_if_free` call. */
  lemma MergeSnoc(acc: seq<Span>, cands: seq<Span>, c: Span)
    ensures Merge(acc, cands + [c]) == TryAdd(Merge(acc, cands), c)
  {
    assert (cands + [c])[..|cands|] == cands;
  }

  /** Submitting `a` then `b` is the same as submitting `a + b`. */
  lemma {:induction false} MergeAppend(acc: seq<Span>, a: seq<Span>, b: seq<Span>)
    ensures Merge(acc, a + b) == Merge(Merge(acc, a), b)
    decreases |b|
  {
    if b == [] {
      assert a + b == a;
    } else {
      MergeAppend(acc, a, b[..|b| - 1]);
      assert (a + b)[..|a + b| - 1] == a + b[..|b| - 1];
      assert (a + b)[|a + b| - 1] == b[|b| - 1];
    }
  }

  /** The in-place list that `add_span_if_free` mutates. */
  class SpanList {
    var items: seq<Span>

    constructor ()
      ensures items == []
    {
      items := [];
    }

    /** `add_span_if_free`: scan the list for an overlap; append the new
        triple and answer true only when there is none. */
    method AddIfFree(start: int, end: int, tag: Labels.Label) returns (added: bool)
      modifies this
      ensures added == IsFree(old(items), start, end)
      ensures items == if added then old(items) + [Span(start, end, tag)] else old(items)
      ensures NonOverlapping(old(items)) ==> NonOverlapping(items)
    {
      for i := 0 to |items|
        invariant IsFree(items[..i], start, end)
      {
        var sp := items[i];
        if !(end <= sp.start || start >= sp.end) {
          return false;
        }
      }
      if NonOverlapping(items) {
        TryAddKeepsNonOverlapping(items, Span(start, end, tag));
      }
      items := items + [Span(start, end, tag)];
      added := true;
    }
  }
}
