/**
 * The renderer of `anonimizar_texto`: the accepted spans sorted by start,
 * right to left, and each one spliced over the text by slicing, with the
 * original offsets. The left-to-right build `Build` (gaps of the original
 * text interleaved with markers) is the reference the splicing is proved
 * equal to.
 */
module Render {
  import opened Spans
  import Labels

  /** Starts never increase along `s`. */
  predicate SortedDesc(s: seq<Span>) {
    forall i, j :: 0 <= i < j < |s| ==> s[i].start >= s[j].start
  }

  /** Non-empty and pairwise non-overlapping, as every final span list is. */
  predicate Separated(s: seq<Span>) {
    (forall i :: 0 <= i < |s| ==> s[i].start < s[i].end) && NonOverlapping(s)
  }

  lemma InsertStep(x: Span, r: seq<Span>, rest: seq<Span>)
    requires r != [] && SortedDesc(r) && r[0].start >= x.start
    requires SortedDesc(rest) && multiset(rest) == multiset(r[1..]) + multiset{x}
    ensures SortedDesc([r[0]] + rest) && multiset([r[0]] + rest) == multiset(r) + multiset{x}
  {
    assert r == [r[0]] + r[1..];
    forall j | 0 <= j < |rest| ensures rest[j].start <= r[0].start {
      assert rest[j] in multiset(rest);
      if rest[j] != x {
        assert rest[j] in multiset(r[1..]);
        var i :| 0 <= i < |r[1..]| && r[1..][i] == rest[j];
        assert r[i + 1] == rest[j];
      }
    }
  }

  /** Place x after every entry whose start is at least x's. */
  function InsertDesc(x: Span, r: seq<Span>): (r': seq<Span>)
    requires SortedDesc(r)
    ensures SortedDesc(r') && multiset(r') == multiset(r) + multiset{x}
  {
    if r == [] then [x]
    else if r[0].start >= x.start then
      var rest := InsertDesc(x, r[1..]);
      InsertStep(x, r, rest);
      [r[0]] + rest
    else
      assert r == [r[0]] + r[1..];
      [x] + r
  }

  /** `sorted(spans, key=start, reverse=True)`: a stable insertion sort,
      each entry placed after those already placed with a start at least its own. */
  function SortByStartDesc(s: seq<Span>): (r: seq<Span>)
    ensures SortedDesc(r) && multiset(r) == multiset(s)
    decreases |s|
  {
    if s == [] then []
    else
      assert s == s[..|s| - 1] + [s[|s| - 1]];
      InsertDesc(s[|s| - 1], SortByStartDesc(s[..|s| - 1]))
  }

  function Reverse(s: seq<Span>): (r: seq<Span>)
    ensures |r| == |s| && forall i :: 0 <= i < |s| ==> r[i] == s[|s| - 1 - i]
  {
    if s == [] then [] else Reverse(s[1..]) + [s[0]]
  }

  /** Spans listed right to left inside [0, n): each ends where or before the previous one starts. */
  predicate DescChain(desc: seq<Span>, n: int) {
    (forall i :: 0 <= i < |desc| ==> 0 <= desc[i].start <= desc[i].end <= n) &&
    (forall i, j :: 0 <= i < j < |desc| ==> desc[j].end <= desc[i].start)
  }

  /** Spans listed left to right inside [from, n): each starts at or after
      the end of the one before it. */
  predicate AscChain(asc: seq<Span>, from: int, n: int)
    decreases |asc|
  {
    if asc == [] then from <= n
    else from <= asc[0].start <= asc[0].end <= n && AscChain(asc[1..], asc[0].end, n)
  }

  /** `texto_anon[:start] + popup + texto_anon[end:]`. */
  function Splice(t: string, sp: Span, marker: Labels.Label -> string): (r: string)
    requires 0 <= sp.start <= sp.end <= |t|
    ensures |r| == |t| - (sp.end - sp.start) + |marker(sp.tag)|
    ensures r[..sp.start] == t[..sp.start]
    ensures r[sp.start..sp.start + |marker(sp.tag)|] == marker(sp.tag)
    ensures r[sp.start + |marker(sp.tag)|..] == t[sp.end..]
  {
    t[..sp.start] + marker(sp.tag) + t[sp.end..]
  }

  /** The splice loop: each span of `desc`, in order, spliced over the text so far. */
  function SpliceAll(t: string, desc: seq<Span>, marker: Labels.Label -> string): string
    requires DescChain(desc, |t|)
    decreases |desc|
  {
    if desc == [] then t
    else SpliceAll(Splice(t, desc[0], marker), desc[1..], marker)
  }

  /** One left-to-right pass from position `from`: the untouched gap
      before each span, then its marker, then the rest of the text. */
  function Build(t: string, asc: seq<Span>, from: nat, marker: Labels.Label -> string): string
    requires AscChain(asc, from, |t|)
    decreases |asc|
  {
    if asc == [] then t[from..]
    else t[from..asc[0].start] + marker(asc[0].tag) + Build(t, asc[1..], asc[0].end, marker)
  }

  /** What the text grows by up to position p: for each span ending at or
      before p, its marker's length minus the length of the text it replaces. */
  function Growth(asc: seq<Span>, p: int, marker: Labels.Label -> string): int
    decreases |asc|
  {
    if asc == [] then 0
    else (if asc[0].end <= p then |marker(asc[0].tag)| - (asc[0].end - asc[0].start) else 0)
         + Growth(asc[1..], p, marker)
  }

  /** The rendered text of a final span list: its spans left to right,
      gaps copied, each span's range replaced by the marker of its label. */
  function Rendered(t: string, spans: seq<Span>, marker: Labels.Label -> string): string
    requires Separated(spans) && InBounds(spans, |t|)
  {
    var desc := SortByStartDesc(spans);
    SortedSeparatedIsChain(spans, desc, |t|);
    ReverseIsAscending(desc, |t|);
    Build(t, Reverse(desc), 0, marker)
  }

  /** What a left-to-right chain means entry by entry. */
  lemma {:induction false} AscChainBounds(asc: seq<Span>, from: int, n: int)
    requires AscChain(asc, from, n)
    ensures from <= n
    ensures forall i :: 0 <= i < |asc| ==> from <= asc[i].start <= asc[i].end <= n
    ensures forall i, j :: 0 <= i < j < |asc| ==> asc[i].end <= asc[j].start
    decreases |asc|
  {
    if asc != [] {
      AscChainBounds(asc[1..], asc[0].end, n);
      assert forall i :: 1 <= i < |asc| ==> asc[i] == asc[1..][i - 1];
    }
  }

  /** A chain ends with d exactly when the chain before d stops by d's start and d fits below n. */
  lemma {:induction false} AscChainSnoc(asc: seq<Span>, d: Span, from: int, n: int)
    ensures AscChain(asc + [d], from, n) <==> AscChain(asc, from, d.start) && d.start <= d.end <= n
    decreases |asc|
  {
    if asc == [] {
      assert asc + [d] == [d] && [d][1..] == [];
    } else {
      assert (asc + [d])[0] == asc[0];
      assert (asc + [d])[1..] == asc[1..] + [d];
      AscChainSnoc(asc[1..], d, asc[0].end, n);
    }
  }

  /** Reversing a right-to-left chain gives a left-to-right one. */
  lemma {:induction false} ReverseIsAscending(desc: seq<Span>, n: int)
    requires DescChain(desc, n) && 0 <= n
    ensures AscChain(Reverse(desc), 0, n)
    decreases |desc|
  {
    if desc != [] {
      var d, rest := desc[0], desc[1..];
      ReverseIsAscending(rest, d.start);
      assert Reverse(desc) == Reverse(rest) + [d];
      AscChainSnoc(Reverse(rest), d, 0, n);
    }
  }

  /** A separated list holds each span at most once. */
  lemma {:induction false} SeparatedHasNoRepeats(s: seq<Span>)
    requires Separated(s)
    ensures forall x :: multiset(s)[x] <= 1
    decreases |s|
  {
    if s != [] {
      var k := |s| - 1;
      var front := s[..k];
      assert Separated(front) by {
        forall i, j | 0 <= i < j < |front| ensures !Overlaps(front[i], front[j]) {
          assert front[i] == s[i] && front[j] == s[j];
        }
      }
      SeparatedHasNoRepeats(front);
      forall i | 0 <= i < k ensures front[i] != s[k] {
        assert !Overlaps(s[i], s[k]);
      }
      assert s[k] !in front;
      assert s == front + [s[k]];
    }
  }

  lemma TwoPositions(r: seq<Span>, i: int, j: int)
    requires 0 <= i < j < |r|
    ensures r[i] == r[j] ==> multiset(r)[r[i]] >= 2
  {
    assert r == r[..j] + [r[j]] + r[j + 1..];
    assert r[i] in r[..j];
  }

  /** Sorting a separated in-bounds list by start, descending, lines the
      spans up right to left, each ending before the previous one starts. */
  lemma SortedSeparatedIsChain(s: seq<Span>, r: seq<Span>, n: int)
    requires Separated(s) && InBounds(s, n)
    requires multiset(r) == multiset(s) && SortedDesc(r)
    ensures DescChain(r, n) && InBounds(r, n) && Separated(r)
    ensures forall i, j :: 0 <= i < j < |r| ==> r[i].start > r[j].start
  {
    SeparatedHasNoRepeats(s);
    forall i | 0 <= i < |r| ensures 0 <= r[i].start < r[i].end <= n {
      assert r[i] in multiset(s);
      var p :| 0 <= p < |s| && s[p] == r[i];
    }
    forall i, j | 0 <= i < j < |r| ensures r[j].end <= r[i].start {
      TwoPositions(r, i, j);
      assert r[i] in multiset(s) && r[j] in multiset(s);
      var p :| 0 <= p < |s| && s[p] == r[i];
      var q :| 0 <= q < |s| && s[q] == r[j];
      assert p != q;
      if p < q {
        assert !Overlaps(s[p], s[q]);
      } else {
        assert !Overlaps(s[q], s[p]);
      }
    }
  }

  /** Two lists of the same spans with strictly decreasing starts begin with the same span. */
  lemma StrictOrderSameHead(r1: seq<Span>, r2: seq<Span>)
    requires r1 != [] && multiset(r1) == multiset(r2)
    requires forall i, j :: 0 <= i < j < |r1| ==> r1[i].start > r1[j].start
    requires forall i, j :: 0 <= i < j < |r2| ==> r2[i].start > r2[j].start
    ensures r2 != [] && r1[0] == r2[0]
  {
    assert r1[0] in multiset(r2);
    var k :| 0 <= k < |r2| && r2[k] == r1[0];
    assert r2[0] in multiset(r1);
    var m :| 0 <= m < |r1| && r1[m] == r2[0];
    assert r1[0].start >= r1[m].start;
  }

  lemma SameTails(r1: seq<Span>, r2: seq<Span>)
    requires r1 != [] && r2 != [] && r1[0] == r2[0] && multiset(r1) == multiset(r2)
    ensures multiset(r1[1..]) == multiset(r2[1..])
  {
    assert r1 == [r1[0]] + r1[1..];
    assert r2 == [r2[0]] + r2[1..];
    assert multiset(r1) == multiset{r1[0]} + multiset(r1[1..]);
    assert multiset(r2) == multiset{r2[0]} + multiset(r2[1..]);
    assert multiset(r1[1..]) == multiset(r1) - multiset{r1[0]};
  }

  /** Two right-to-left lists of the same spans, with strictly decreasing starts, are equal. */
  lemma {:induction false} StrictOrderIsUnique(r1: seq<Span>, r2: seq<Span>)
    requires multiset(r1) == multiset(r2)
    requires forall i, j :: 0 <= i < j < |r1| ==> r1[i].start > r1[j].start
    requires forall i, j :: 0 <= i < j < |r2| ==> r2[i].start > r2[j].start
    ensures r1 == r2
    decreases |r1|
  {
    if r1 == [] {
      assert |multiset(r2)| == 0;
    } else {
      StrictOrderSameHead(r1, r2);
      SameTails(r1, r2);
      StrictOrderIsUnique(r1[1..], r2[1..]);
      assert r1 == [r1[0]] + r1[1..];
      assert r2 == [r2[0]] + r2[1..];
    }
  }

  /** The descending sort of a final span list is unambiguous: every
      ordering of the same spans with non-increasing starts is the one
      SortByStartDesc gives, stable or not. */
  lemma SortIsUnambiguous(s: seq<Span>, r: seq<Span>, n: int)
    requires Separated(s) && InBounds(s, n)
    requires multiset(r) == multiset(s) && SortedDesc(r)
    ensures r == SortByStartDesc(s)
  {
    SortedSeparatedIsChain(s, r, n);
    SortedSeparatedIsChain(s, SortByStartDesc(s), n);
    StrictOrderIsUnique(r, SortByStartDesc(s));
  }

  /** Rendering the text cut at k, then appending the rest, is rendering the whole text. */
  lemma {:induction false} BuildCut(t: string, asc: seq<Span>, from: nat, k: nat, marker: Labels.Label -> string)
    requires AscChain(asc, from, k) && k <= |t|
    ensures AscChain(asc, from, |t|)
    ensures Build(t, asc, from, marker) == Build(t[..k], asc, from, marker) + t[k..]
    decreases |asc|
  {
    if asc == [] {
      assert t[from..] == t[..k][from..] + t[k..];
    } else {
      BuildCut(t, asc[1..], asc[0].end, k, marker);
      assert t[from..asc[0].start] == t[..k][from..asc[0].start];
    }
  }

  /** The last span of a left-to-right build: everything before it, its marker, the tail of the text. */
  lemma {:induction false} BuildSnoc(t: string, asc: seq<Span>, d: Span, from: nat, marker: Labels.Label -> string)
    requires AscChain(asc + [d], from, |t|)
    ensures d.start <= d.end <= |t| && AscChain(asc, from, d.start)
    ensures Build(t, asc + [d], from, marker) == Build(t[..d.start], asc, from, marker) + marker(d.tag) + t[d.end..]
    decreases |asc|
  {
    AscChainSnoc(asc, d, from, |t|);
    AscChainBounds(asc + [d], from, |t|);
    if asc == [] {
      assert asc + [d] == [d];
      assert t[..d.start][from..] == t[from..d.start];
    } else {
      var a, u := asc[0], t[..d.start];
      assert (asc + [d])[0] == a;
      assert (asc + [d])[1..] == asc[1..] + [d];
      BuildSnoc(t, asc[1..], d, a.end, marker);
      calc {
        Build(t, asc + [d], from, marker);
      ==
        t[from..a.start] + marker(a.tag) + Build(t, asc[1..] + [d], a.end, marker);
      ==
        t[from..a.start] + marker(a.tag) + (Build(u, asc[1..], a.end, marker) + marker(d.tag) + t[d.end..]);
      == { assert u[from..a.start] == t[from..a.start]; }
        Build(u, asc, from, marker) + marker(d.tag) + t[d.end..];
      }
    }
  }

  /** Splicing d first, then building over spans left of d, is building over them and d. */
  lemma SpliceThenBuild(t: string, asc: seq<Span>, d: Span, marker: Labels.Label -> string)
    requires 0 <= d.start <= d.end <= |t| && AscChain(asc, 0, d.start)
    ensures AscChain(asc + [d], 0, |t|) && AscChain(asc, 0, |Splice(t, d, marker)|)
    ensures Build(Splice(t, d, marker), asc, 0, marker) == Build(t, asc + [d], 0, marker)
  {
    var t' := Splice(t, d, marker);
    AscChainSnoc(asc, d, 0, |t|);
    BuildCut(t', asc, 0, d.start, marker);
    assert t'[..d.start] == t[..d.start];
    assert t'[d.start..] == marker(d.tag) + t[d.end..];
    BuildSnoc(t, asc, d, 0, marker);
  }

  /** The splice loop, right to left with the original offsets, equals one
      left-to-right pass over the same spans. */
  lemma {:induction false} SpliceAllIsBuild(t: string, desc: seq<Span>, marker: Labels.Label -> string)
    requires DescChain(desc, |t|)
    ensures AscChain(Reverse(desc), 0, |t|)
    ensures SpliceAll(t, desc, marker) == Build(t, Reverse(desc), 0, marker)
    decreases |desc|
  {
    ReverseIsAscending(desc, |t|);
    if desc != [] {
      var d, rest := desc[0], desc[1..];
      SpliceAllIsBuild(Splice(t, d, marker), rest, marker);
      ReverseIsAscending(rest, d.start);
      SpliceThenBuild(t, Reverse(rest), d, marker);
      assert Reverse(desc) == Reverse(rest) + [d];
    }
  }

  lemma {:induction false} GrowthBefore(asc: seq<Span>, p: int, marker: Labels.Label -> string)
    requires forall i :: 0 <= i < |asc| ==> p < asc[i].end
    ensures Growth(asc, p, marker) == 0
    decreases |asc|
  {
    if asc != [] {
      GrowthBefore(asc[1..], p, marker);
    }
  }

  /** A character outside every span is copied unchanged, to its position
      shifted by the growth of the spans before it. */
  lemma {:induction false} BuildKeepsText(t: string, asc: seq<Span>, from: nat, p: int, marker: Labels.Label -> string)
    requires AscChain(asc, from, |t|) && from <= p < |t|
    requires forall i :: 0 <= i < |asc| ==> !(asc[i].start <= p < asc[i].end)
    ensures 0 <= p - from + Growth(asc, p, marker) < |Build(t, asc, from, marker)|
    ensures Build(t, asc, from, marker)[p - from + Growth(asc, p, marker)] == t[p]
    decreases |asc|
  {
    AscChainBounds(asc, from, |t|);
    if asc != [] {
      var a := asc[0];
      var gap, m, rest := t[from..a.start], marker(a.tag), Build(t, asc[1..], a.end, marker);
      assert Build(t, asc, from, marker) == gap + m + rest;
      if p < a.start {
        GrowthBefore(asc, p, marker);
        assert (gap + m + rest)[p - from] == gap[p - from];
      } else {
        assert a.end <= p;
        BuildKeepsText(t, asc[1..], a.end, p, marker);
        var q := p - a.end + Growth(asc[1..], p, marker);
        assert p - from + Growth(asc, p, marker) == |gap| + |m| + q;
        assert (gap + m + rest)[|gap| + |m| + q] == rest[q];
      }
    }
  }

  /** Each non-empty span's range is replaced by its marker, at its start
      shifted by the growth of the spans before it. */
  lemma {:induction false} BuildPlacesMarker(t: string, asc: seq<Span>, from: nat, k: nat, marker: Labels.Label -> string)
    requires AscChain(asc, from, |t|) && k < |asc| && asc[k].start < asc[k].end
    ensures var q, m := asc[k].start - from + Growth(asc, asc[k].start, marker), marker(asc[k].tag);
      0 <= q && q + |m| <= |Build(t, asc, from, marker)| && Build(t, asc, from, marker)[q..q + |m|] == m
    decreases |asc|
  {
    AscChainBounds(asc, from, |t|);
    var a := asc[0];
    var gap, m, rest := t[from..a.start], marker(a.tag), Build(t, asc[1..], a.end, marker);
    assert Build(t, asc, from, marker) == gap + m + rest;
    if k == 0 {
      GrowthBefore(asc, a.start, marker);
      assert (gap + m + rest)[|gap|..|gap| + |m|] == m;
    } else {
      var b := asc[k];
      assert asc[1..][k - 1] == b;
      BuildPlacesMarker(t, asc[1..], a.end, k - 1, marker);
      assert a.end <= b.start;
      var q := b.start - a.end + Growth(asc[1..], b.start, marker);
      assert b.start - from + Growth(asc, b.start, marker) == |gap| + |m| + q;
      assert (gap + m + rest)[|gap| + |m| + q..|gap| + |m| + q + |marker(b.tag)|] == rest[q..q + |marker(b.tag)|];
    }
  }

  /** With no spans the text is returned as it is. */
  lemma RenderedEmpty(t: string, marker: Labels.Label -> string)
    ensures Rendered(t, [], marker) == t
  {
  }
}
