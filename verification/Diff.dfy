/** `unifiedDiff`: a two-pass multiset difference whose second pass reads counters that the first
    pass has changed. */
module DiffModel {
  import opened Basics

  datatype Line = Line(text: string)

  // ---- The reference -----------------------------------------------------------------------

  /** Occurrences of `l` among the first `i` lines. */
  function Occ(lines: seq<Line>, i: nat, l: Line): nat
    requires i <= |lines|
  {
    if i == 0 then 0 else Occ(lines, i - 1, l) + if lines[i - 1] == l then 1 else 0
  }

  function Total(lines: seq<Line>, l: Line): nat {
    Occ(lines, |lines|, l)
  }

  /** By how much `x` exceeds `y`. */
  function Excess(x: int, y: int): nat {
    if x > y then x - y else 0
  }

  /** Line `i` of `a` is surplus: fewer of its equals precede it than `a` has more of it than `b`. */
  predicate InSurplus(a: seq<Line>, b: seq<Line>, i: nat)
    requires i < |a|
  {
    Occ(a, i, a[i]) < Total(a, a[i]) - Total(b, a[i])
  }

  /** The surplus lines among the first `i` of `a`, in order. */
  function Picked(a: seq<Line>, b: seq<Line>, i: nat): seq<Line>
    requires i <= |a|
  {
    if i == 0 then []
    else if InSurplus(a, b, i - 1) then Picked(a, b, i - 1) + [a[i - 1]]
    else Picked(a, b, i - 1)
  }

  function Surplus(a: seq<Line>, b: seq<Line>): seq<Line> {
    Picked(a, b, |a|)
  }

  predicate Subsequence(a: seq<Line>, b: seq<Line>)
    decreases b
  {
    a == [] || (b != [] &&
      var m, n := |a| - 1, |b| - 1;
      (a[m] == b[n] && Subsequence(a[..m], b[..n])) || Subsequence(a, b[..n]))
  }

  // ---- Facts about occurrences -------------------------------------------------------------

  lemma {:induction false} OccPrefix(s: seq<Line>, t: seq<Line>, i: nat, l: Line)
    requires i <= |s|
    ensures Occ(s + t, i, l) == Occ(s, i, l)
  {
    if i > 0 {
      OccPrefix(s, t, i - 1, l);
    }
  }

  lemma TotalAppend(s: seq<Line>, x: Line, l: Line)
    ensures Total(s + [x], l) == Total(s, l) + if x == l then 1 else 0
  {
    OccPrefix(s, [x], |s|, l);
  }

  lemma {:induction false} OccMonotone(s: seq<Line>, i: nat, j: nat, l: Line)
    requires i <= j <= |s|
    ensures Occ(s, i, l) <= Occ(s, j, l)
  {
    if i < j {
      OccMonotone(s, i, j - 1, l);
    }
  }

  lemma {:induction false} TotalIsMultiplicity(s: seq<Line>, l: Line)
    ensures multiset(s)[l] == Total(s, l)
  {
    if s != [] {
      var n := |s| - 1;
      assert s == s[..n] + [s[n]];
      TotalIsMultiplicity(s[..n], l);
      TotalAppend(s[..n], s[n], l);
    }
  }

  /** Of every line, exactly the excess is picked. */
  lemma {:induction false} PickedCount(a: seq<Line>, b: seq<Line>, i: nat, l: Line)
    requires i <= |a|
    ensures Total(Picked(a, b, i), l) == Min(Occ(a, i, l), Excess(Total(a, l), Total(b, l)))
  {
    if i > 0 {
      PickedCount(a, b, i - 1, l);
      TotalAppend(Picked(a, b, i - 1), a[i - 1], l);
    }
  }

  lemma SurplusCount(a: seq<Line>, b: seq<Line>, l: Line)
    ensures Total(Surplus(a, b), l) == Excess(Total(a, l), Total(b, l))
  {
    PickedCount(a, b, |a|, l);
  }

  lemma {:induction false} PickedKeepsOrder(a: seq<Line>, b: seq<Line>, i: nat)
    requires i <= |a|
    ensures Subsequence(Picked(a, b, i), a[..i])
  {
    if i > 0 {
      PickedKeepsOrder(a, b, i - 1);
      assert a[..i][..i - 1] == a[..i - 1];
      var before := Picked(a, b, i - 1);
      assert (before + [a[i - 1]])[..|before|] == before;
    }
  }

  lemma SurplusKeepsOrder(a: seq<Line>, b: seq<Line>)
    ensures Subsequence(Surplus(a, b), a)
  {
    PickedKeepsOrder(a, b, |a|);
    assert a[..|a|] == a;
  }

  // ---- What the two lists say --------------------------------------------------------------

  lemma SurplusMultiplicity(a: seq<Line>, b: seq<Line>, l: Line)
    ensures multiset(Surplus(a, b))[l] == Excess(multiset(a)[l], multiset(b)[l])
  {
    TotalIsMultiplicity(a, l);
    TotalIsMultiplicity(b, l);
    TotalIsMultiplicity(Surplus(a, b), l);
    SurplusCount(a, b, l);
  }

  /** Multisets that relate by excess and deficit in every multiplicity. */
  lemma PatchedIsTarget(w: multiset<Line>, g: multiset<Line>, r: multiset<Line>, a: multiset<Line>)
    requires forall l :: r[l] == Excess(w[l], g[l]) && a[l] == Excess(g[l], w[l])
    ensures w - r + a == g && r !! a
  {
  }

  /** The two lists turn one multiset of lines into the other, and share no line; each keeps the
      order of its file. */
  lemma DiffIsExact(want: seq<Line>, got: seq<Line>)
    ensures multiset(want) - multiset(Surplus(want, got)) + multiset(Surplus(got, want)) == multiset(got)
    ensures multiset(Surplus(want, got)) !! multiset(Surplus(got, want))
    ensures Subsequence(Surplus(want, got), want) && Subsequence(Surplus(got, want), got)
  {
    var w, g := multiset(want), multiset(got);
    var r, a := multiset(Surplus(want, got)), multiset(Surplus(got, want));
    forall l ensures r[l] == Excess(w[l], g[l]) && a[l] == Excess(g[l], w[l]) {
      SurplusMultiplicity(want, got, l);
      SurplusMultiplicity(got, want, l);
    }
    PatchedIsTarget(w, g, r, a);
    SurplusKeepsOrder(want, got);
    SurplusKeepsOrder(got, want);
  }

  /** Both lists are empty exactly when the files have the same lines equally often. */
  lemma EmptyIffSameLines(want: seq<Line>, got: seq<Line>)
    ensures Surplus(want, got) == [] && Surplus(got, want) == [] <==> multiset(want) == multiset(got)
  {
    DiffIsExact(want, got);
    if multiset(want) == multiset(got) {
      NoSurplus(want, got);
      NoSurplus(got, want);
    }
  }

  lemma NoSurplus(a: seq<Line>, b: seq<Line>)
    requires multiset(a) == multiset(b)
    ensures Surplus(a, b) == []
  {
    var s := Surplus(a, b);
    if s != [] {
      var l := s[0];
      SurplusCount(a, b, l);
      TotalIsMultiplicity(a, l);
      TotalIsMultiplicity(b, l);
      OccMonotone(s, 1, |s|, l);
    }
  }

  // ---- Counters, as Go maps whose missing keys read as 0 -----------------------------------

  function Count(m: map<Line, int>, l: Line): int {
    if l in m then m[l] else 0
  }

  method CountLines(lines: seq<Line>) returns (counts: map<Line, int>)
    ensures forall l :: Count(counts, l) == Total(lines, l)
  {
    counts := map[];
    var i := 0;
    while i < |lines|
      invariant 0 <= i <= |lines|
      invariant forall l :: Count(counts, l) == Occ(lines, i, l)
    {
      counts := counts[lines[i] := Count(counts, lines[i]) + 1];
      i := i + 1;
    }
  }

  /** The counter of `l` after `i` lines of a pass. */
  function Lowered(a: seq<Line>, b: seq<Line>, i: nat, l: Line): int
    requires i <= |a|
  {
    Total(a, l) - Min(Occ(a, i, l), Excess(Total(a, l), Total(b, l)))
  }

  ghost predicate CountersAre(m: map<Line, int>, a: seq<Line>, b: seq<Line>, i: nat)
    requires i <= |a|
  {
    forall l :: Count(m, l) == Lowered(a, b, i, l)
  }

  /** A surplus line lowers its own counter; any other line lowers none. */
  lemma LoweredStep(a: seq<Line>, b: seq<Line>, i: nat, l: Line)
    requires i < |a|
    ensures Lowered(a, b, i + 1, l) == Lowered(a, b, i, l) - if l == a[i] && InSurplus(a, b, i) then 1 else 0
  {
    OccMonotone(a, i + 1, |a|, l);
  }

  /** Comparing counters finds the surplus lines, whether the other one is fresh or lowered. */
  lemma ComparesRight(a: seq<Line>, b: seq<Line>, i: nat, other: int)
    requires i < |a| && Min(Total(a, a[i]), Total(b, a[i])) <= other <= Total(b, a[i])
    ensures Lowered(a, b, i, a[i]) > other <==> InSurplus(a, b, i)
  {
  }

  lemma CountersStep(m: map<Line, int>, a: seq<Line>, b: seq<Line>, i: nat)
    requires i < |a| && CountersAre(m, a, b, i)
    ensures CountersAre(if InSurplus(a, b, i) then m[a[i] := Count(m, a[i]) - 1] else m, a, b, i + 1)
  {
    var n := if InSurplus(a, b, i) then m[a[i] := Count(m, a[i]) - 1] else m;
    forall l ensures Count(n, l) == Lowered(a, b, i + 1, l) {
      LoweredStep(a, b, i, l);
      assert Count(m, l) == Lowered(a, b, i, l);
    }
  }

  // ---- The two passes ----------------------------------------------------------------------

  /** One pass over `a`. The counters of the other file may be untouched, or already lowered to
      what both files have: the outcome is the same. */
  method CollectSurplus(a: seq<Line>, counts: map<Line, int>, other: map<Line, int>, ghost b: seq<Line>)
    returns (picked: seq<Line>, lowered: map<Line, int>)
    requires forall l :: Count(counts, l) == Total(a, l)
    requires forall l :: Min(Total(a, l), Total(b, l)) <= Count(other, l) <= Total(b, l)
    ensures picked == Surplus(a, b)
    ensures forall l :: Count(lowered, l) == Min(Total(a, l), Total(b, l))
  {
    picked, lowered := [], counts;
    var i := 0;
    while i < |a|
      invariant 0 <= i <= |a|
      invariant CountersAre(lowered, a, b, i)
      invariant picked == Picked(a, b, i)
    {
      var l := a[i];
      ComparesRight(a, b, i, Count(other, l));
      CountersStep(lowered, a, b, i);
      if Count(lowered, l) > Count(other, l) {
        picked := picked + [l];
        lowered := lowered[l := Count(lowered, l) - 1];
      }
      i := i + 1;
    }
  }

  /** `unifiedDiff` up to the rendering of its lists; `identical` selects its closing remark. */
  method UnifiedDiff(want: seq<Line>, got: seq<Line>)
    returns (removed: seq<Line>, added: seq<Line>, identical: bool)
    ensures removed == Surplus(want, got) && added == Surplus(got, want)
    ensures identical <==> multiset(want) == multiset(got)
  {
    var wantCount := CountLines(want);
    var gotCount := CountLines(got);
    removed, wantCount := CollectSurplus(want, wantCount, gotCount, got);
    added, gotCount := CollectSurplus(got, gotCount, wantCount, want);
    identical := |removed| == 0 && |added| == 0;
    EmptyIffSameLines(want, got);
  }
}
