// Classification of a face's boundary loop against a boundary-overlap chain
// (FaceEdgeMap::split_overlaps_on_boundary, face_face.cc:144-218): the loop
// is cut into maximal runs of vertices that are common with the chain and
// runs that are not, the first and last runs are merged across the seam of
// the circular loop, and every not-common run is bracketed by the ends of its
// neighbouring common runs.
module Runs {
  import opened Base

  /** A maximal run of boundary vertices of one kind. */
  datatype Run = Run(common: bool, verts: seq<Vertex>)

  /** The state of the scan after a prefix of the loop: the runs found so far
      and what is left of the copy of the chain. */
  datatype Scan = Scan(runs: seq<Run>, rest: seq<Vertex>)

  /** The result of lines 144-193: common runs, not-common runs (both after
      the seam merge), the unmatched rest of the chain copy, and whether the
      loop's first vertex is common. */
  datatype Decomposition = Decomposition(
    comm: seq<seq<Vertex>>, notComm: seq<seq<Vertex>>, rest: seq<Vertex>, firstIsCommon: bool)

  // ---------------------------------------------------------------------------
  // Specification functions

  function Extend(runs: seq<Run>, v: Vertex): seq<Run>
    requires |runs| > 0
  {
    runs[..|runs| - 1] + [Run(runs[|runs| - 1].common, runs[|runs| - 1].verts + [v])]
  }

  /** Adds a vertex to a list of runs: to a new run when `open` holds
      (emplace_back), otherwise to the last run (back().push_back). */
  function Push(runs: seq<seq<Vertex>>, v: Vertex, open: bool): seq<seq<Vertex>>
    requires open || |runs| > 0
  {
    if open then runs + [[v]] else runs[..|runs| - 1] + [runs[|runs| - 1] + [v]]
  }

  /** One iteration of the scan (lines 155-173): a vertex still in the copy is
      common and is erased from the copy; it extends the last run when that
      run has its kind and opens a new run otherwise. */
  function Step(s: Scan, v: Vertex): Scan
  {
    var n := |s.runs|;
    if v in s.rest then
      if n > 0 && s.runs[n - 1].common then Scan(Extend(s.runs, v), RemoveFirst(s.rest, v))
      else Scan(s.runs + [Run(true, [v])], RemoveFirst(s.rest, v))
    else if n > 0 && !s.runs[n - 1].common then Scan(Extend(s.runs, v), s.rest)
    else Scan(s.runs + [Run(false, [v])], s.rest)
  }

  /** The scan of the whole loop against a fresh copy of the chain. */
  function Classify(loop: seq<Vertex>, chain: seq<Vertex>): Scan
  {
    if loop == [] then Scan([], chain)
    else Step(Classify(loop[..|loop| - 1], chain), loop[|loop| - 1])
  }

  /** The vertices of the runs, in order. */
  function Flatten(runs: seq<Run>): seq<Vertex>
  {
    if runs == [] then [] else Flatten(runs[..|runs| - 1]) + runs[|runs| - 1].verts
  }

  /** The vertex lists of the runs of one kind, in order (comm_verts for
      `true`, not_comm_verts for `false`). */
  function Kind(runs: seq<Run>, common: bool): seq<seq<Vertex>>
  {
    if runs == [] then []
    else
      var last := runs[|runs| - 1];
      Kind(runs[..|runs| - 1], common) + (if last.common == common then [last.verts] else [])
  }

  predicate LastCommon(runs: seq<Run>)
  {
    |runs| > 0 && runs[|runs| - 1].common
  }

  predicate FirstCommon(runs: seq<Run>)
  {
    |runs| > 0 && runs[0].common
  }

  ghost predicate Alternating(runs: seq<Run>)
  {
    forall i, j :: 0 <= i < j < |runs| && j == i + 1 ==> runs[i].common != runs[j].common
  }

  ghost predicate NonEmptyRuns(runs: seq<seq<Vertex>>)
  {
    forall k :: 0 <= k < |runs| ==> |runs[k]| > 0
  }

  /** The merge_tail lambda (lines 177-186): when the loop starts with the
      first run, the last run is moved in front of it. */
  function MergeTail(loop: seq<Vertex>, runs: seq<seq<Vertex>>): (r: seq<seq<Vertex>>)
    requires |loop| > 0 && NonEmptyRuns(runs)
    ensures NonEmptyRuns(r)
    ensures |runs| >= 2 && loop[0] == runs[0][0] ==> |r| == |runs| - 1
    ensures !(|runs| >= 2 && loop[0] == runs[0][0]) ==> r == runs
  {
    if |runs| <= 1 || loop[0] != runs[0][0] then runs
    else [runs[|runs| - 1] + runs[0]] + runs[1..|runs| - 1]
  }

  /** Lines 144-193: the scan, then the seam merge. The runs of the first
      vertex's kind lead; when the last vertex has that kind too, merge_tail
      is applied to them. (When nothing is common the source skips the face
      at line 175 without merging; the lead is then a single run, which
      merge_tail leaves alone.) */
  function Decompose(loop: seq<Vertex>, chain: seq<Vertex>): Decomposition
  {
    var s := Classify(loop, chain);
    var R := s.runs;
    if R == [] then Decomposition([], [], s.rest, false)
    else
      RunsInterleave(loop, chain);
      var F := R[0].common;
      var lead := Kind(R, F);
      var other := Kind(R, !F);
      var merged := if R[|R| - 1].common == F then MergeTail(loop, lead) else lead;
      if F then Decomposition(merged, other, s.rest, true)
      else Decomposition(other, merged, s.rest, false)
  }

  /** The runs in boundary order: alternately common and not common,
      starting with the kind of the loop's first vertex. */
  function RunOrder(d: Decomposition): seq<seq<Vertex>>
  {
    if d.firstIsCommon then Interleave(d.comm, d.notComm) else Interleave(d.notComm, d.comm)
  }

  function Interleave<T>(xs: seq<T>, ys: seq<T>): seq<T>
    decreases |xs| + |ys|
  {
    if xs == [] then ys else [xs[0]] + Interleave(ys, xs[1..])
  }

  /** Indices of the common runs left and right of not-common run j
      (lines 205-215). */
  function LeftOf(j: nat, k: nat, firstIsCommon: bool): nat
  {
    if firstIsCommon then j else if j > 0 then j - 1 else if k > 0 then k - 1 else 0
  }

  function RightOf(j: nat, k: nat, firstIsCommon: bool): nat
  {
    if firstIsCommon then (if j + 1 >= k then 0 else j + 1) else j
  }

  ghost predicate Bracketable(d: Decomposition)
  {
    && d.comm != []
    && |d.notComm| <= |d.comm|
    && NonEmptyRuns(d.comm)
  }

  /** Lines 203-218: every not-common run preceded by the last vertex of the
      common run on its left and followed by the first vertex of the common
      run on its right. */
  function Bracketed(d: Decomposition): seq<seq<Vertex>>
    requires Bracketable(d)
  {
    var k := |d.comm|;
    seq(|d.notComm|, j requires 0 <= j < |d.notComm| =>
      [d.comm[LeftOf(j, k, d.firstIsCommon)][|d.comm[LeftOf(j, k, d.firstIsCommon)]| - 1]]
      + d.notComm[j]
      + [d.comm[RightOf(j, k, d.firstIsCommon)][0]])
  }

  // ---------------------------------------------------------------------------
  // Methods: the loops of the source

  /** The classification loop and the seam merge (lines 144-193). */
  method ClassifyBoundary(loop: seq<Vertex>, chain: seq<Vertex>) returns (d: Decomposition)
    ensures d == Decompose(loop, chain)
  {
    var comm, notComm, rest, prevIsCommon, firstIsCommon := ScanBoundary(loop, chain);
    ghost var R := Classify(loop, chain).runs;
    if R != [] {
      RunsInterleave(loop, chain);
    } else {
      assert Kind(R, true) == [] && Kind(R, false) == [];
    }
    if comm != [] && firstIsCommon == prevIsCommon {
      if prevIsCommon {
        comm := MergeTailInPlace(loop, comm);
      } else {
        notComm := MergeTailInPlace(loop, notComm);
      }
    }
    d := Decomposition(comm, notComm, rest, firstIsCommon);
  }

  /** The scan of lines 148-173: one pass over the boundary, erasing every
      common vertex from the chain copy. */
  method ScanBoundary(loop: seq<Vertex>, chain: seq<Vertex>)
    returns (comm: seq<seq<Vertex>>, notComm: seq<seq<Vertex>>, rest: seq<Vertex>,
             prevIsCommon: bool, firstIsCommon: bool)
    ensures var s := Classify(loop, chain);
      && comm == Kind(s.runs, true) && notComm == Kind(s.runs, false) && rest == s.rest
      && prevIsCommon == LastCommon(s.runs) && firstIsCommon == FirstCommon(s.runs)
  {
    rest := chain;
    comm := [];
    notComm := [];
    prevIsCommon := false;
    var first := true;
    firstIsCommon := false;
    ghost var s := Scan([], chain);
    for i := 0 to |loop|
      invariant s == Classify(loop[..i], chain)
      invariant rest == s.rest
      invariant comm == Kind(s.runs, true)
      invariant notComm == Kind(s.runs, false)
      invariant prevIsCommon == LastCommon(s.runs)
      invariant firstIsCommon == FirstCommon(s.runs)
      invariant first == (s.runs == [])
    {
      var v := loop[i];
      assert loop[..i + 1][..i] == loop[..i];
      ScanStep(s, v);
      var at := IndexOf(rest, v);
      if at == |rest| {
        notComm := Push(notComm, v, prevIsCommon || notComm == []);
        prevIsCommon := false;
      } else {
        assert rest[..at] + rest[at + 1..] == RemoveFirst(rest, v);
        rest := rest[..at] + rest[at + 1..];
        comm := Push(comm, v, !prevIsCommon);
        prevIsCommon := true;
        if first {
          firstIsCommon := true;
        }
      }
      first := false;
      s := Step(s, v);
    }
    assert loop[..|loop|] == loop;
  }

  /** merge_tail on a mutable list of runs. */
  method MergeTailInPlace(loop: seq<Vertex>, runs: seq<seq<Vertex>>) returns (r: seq<seq<Vertex>>)
    requires |loop| > 0 && NonEmptyRuns(runs)
    ensures r == MergeTail(loop, runs)
  {
    r := runs;
    if |r| <= 1 || loop[0] != r[0][0] {
      return;
    }
    r := [r[|r| - 1] + r[0]] + r[1..];
    r := r[..|r| - 1];
  }

  /** The bracketing loop (lines 203-218). */
  method Bracket(d: Decomposition) returns (r: seq<seq<Vertex>>)
    requires Bracketable(d)
    ensures r == Bracketed(d)
  {
    r := d.notComm;
    var k := |d.comm|;
    for j := 0 to |r|
      invariant |r| == |d.notComm|
      invariant forall m :: 0 <= m < j ==> r[m] == Bracketed(d)[m]
      invariant forall m :: j <= m < |r| ==> r[m] == d.notComm[m]
    {
      var j1, j2 := j, j;
      if d.firstIsCommon {
        j2 := j2 + 1;
        if j2 >= k {
          j2 := 0;
        }
      } else {
        if j1 > 0 {
          j1 := j1 - 1;
        } else {
          j1 := k - 1;
        }
      }
      r := r[j := [d.comm[j1][|d.comm[j1]| - 1]] + r[j]];
      r := r[j := r[j] + [d.comm[j2][0]]];
    }
  }

  // ---------------------------------------------------------------------------
  // Lemmas

  lemma KindAppend(runs: seq<Run>, r: Run, common: bool)
    ensures Kind(runs + [r], common) == Kind(runs, common) + (if r.common == common then [r.verts] else [])
  {
    assert (runs + [r])[..|runs|] == runs;
  }

  lemma {:induction false} KindCons(r: Run, runs: seq<Run>, common: bool)
    ensures Kind([r] + runs, common) == (if r.common == common then [r.verts] else []) + Kind(runs, common)
    decreases |runs|
  {
    if runs == [] {
      assert [r] + runs == [] + [r];
      KindAppend([], r, common);
    } else {
      var n := |runs| - 1;
      assert [r] + runs == ([r] + runs[..n]) + [runs[n]];
      assert runs == runs[..n] + [runs[n]];
      KindAppend([r] + runs[..n], runs[n], common);
      KindAppend(runs[..n], runs[n], common);
      KindCons(r, runs[..n], common);
    }
  }

  lemma KindNonEmpty(runs: seq<Run>, common: bool)
    requires forall k :: 0 <= k < |runs| ==> |runs[k].verts| > 0
    ensures NonEmptyRuns(Kind(runs, common))
  {
    if runs != [] {
      KindNonEmpty(runs[1..], common);
    }
  }

  lemma {:induction false} FlattenCons(r: Run, runs: seq<Run>)
    ensures Flatten([r] + runs) == r.verts + Flatten(runs)
    decreases |runs|
  {
    if runs == [] {
      assert ([r] + runs)[..0] == [];
    } else {
      var n := |runs| - 1;
      assert ([r] + runs)[..n + 1] == [r] + runs[..n];
      FlattenCons(r, runs[..n]);
    }
  }

  lemma KindExtend(runs: seq<Run>, v: Vertex, c: bool)
    requires |runs| > 0 && runs[|runs| - 1].common == c
    ensures |Kind(runs, c)| > 0
    ensures var K := Kind(runs, c);
      Kind(Extend(runs, v), c) == K[..|K| - 1] + [K[|K| - 1] + [v]]
    ensures Kind(Extend(runs, v), !c) == Kind(runs, !c)
  {
    var n := |runs|;
    var init := runs[..n - 1];
    var last := runs[n - 1];
    assert runs == init + [last];
    KindAppend(init, last, c);
    KindAppend(init, last, !c);
    assert Extend(runs, v) == init + [Run(c, last.verts + [v])];
    KindAppend(init, Run(c, last.verts + [v]), c);
    KindAppend(init, Run(c, last.verts + [v]), !c);
  }

  lemma KindOpen(runs: seq<Run>, v: Vertex, c: bool)
    ensures Kind(runs + [Run(c, [v])], c) == Kind(runs, c) + [[v]]
    ensures Kind(runs + [Run(c, [v])], !c) == Kind(runs, !c)
  {
    KindAppend(runs, Run(c, [v]), c);
    KindAppend(runs, Run(c, [v]), !c);
  }

  /** How one step changes the two run lists and the seam flags. */
  lemma StepKinds(s: Scan, v: Vertex)
    ensures var t := Step(s, v);
      var n := |s.runs|;
      var c := v in s.rest;
      var open := !(n > 0 && s.runs[n - 1].common == c);
      && (open || |Kind(s.runs, c)| > 0)
      && Kind(t.runs, c) == Push(Kind(s.runs, c), v, open)
      && Kind(t.runs, !c) == Kind(s.runs, !c)
      && t.rest == (if c then RemoveFirst(s.rest, v) else s.rest)
      && |t.runs| > 0 && t.runs[|t.runs| - 1].common == c
      && t.runs[0].common == (if n > 0 then s.runs[0].common else c)
  {
    var n := |s.runs|;
    var c := v in s.rest;
    if n > 0 && s.runs[n - 1].common == c {
      KindExtend(s.runs, v, c);
    } else {
      KindOpen(s.runs, v, c);
    }
  }

  /** The step as the scan loop performs it on its own variables. */
  lemma ScanStep(s: Scan, v: Vertex)
    ensures var t := Step(s, v);
      && (v in s.rest ==>
            && Kind(t.runs, true) == Push(Kind(s.runs, true), v, !LastCommon(s.runs))
            && Kind(t.runs, false) == Kind(s.runs, false)
            && t.rest == RemoveFirst(s.rest, v))
      && (v !in s.rest ==>
            && Kind(t.runs, false) == Push(Kind(s.runs, false), v, LastCommon(s.runs) || Kind(s.runs, false) == [])
            && Kind(t.runs, true) == Kind(s.runs, true)
            && t.rest == s.rest)
      && LastCommon(t.runs) == (v in s.rest)
      && FirstCommon(t.runs) == (if s.runs == [] then v in s.rest else FirstCommon(s.runs))
      && t.runs != []
  {
    StepKinds(s, v);
    if v !in s.rest && !LastCommon(s.runs) && s.runs != [] {
      assert Kind(s.runs, false) != [];
    }
    if v !in s.rest && s.runs == [] {
      assert Kind(s.runs, false) == [];
    }
  }

  lemma FlattenAppend(runs: seq<Run>, r: Run)
    ensures Flatten(runs + [r]) == Flatten(runs) + r.verts
  {
    assert (runs + [r])[..|runs|] == runs;
  }

  /** The runs are non-empty, alternate in kind, and spell `loop`. */
  ghost predicate CutOf(runs: seq<Run>, loop: seq<Vertex>)
  {
    && Alternating(runs)
    && (forall k :: 0 <= k < |runs| ==> |runs[k].verts| > 0)
    && Flatten(runs) == loop
    && (runs == [] <==> loop == [])
  }

  /** One step keeps the runs a cut of the scanned prefix. */
  lemma StepShape(s: Scan, loop: seq<Vertex>)
    requires |loop| > 0 && CutOf(s.runs, loop[..|loop| - 1])
    ensures CutOf(Step(s, loop[|loop| - 1]).runs, loop)
  {
    var v := loop[|loop| - 1];
    var p := loop[..|loop| - 1];
    assert loop == p + [v];
    var n := |s.runs|;
    var c := v in s.rest;
    if n > 0 && s.runs[n - 1].common == c {
      ExtendShape(s.runs, p, v);
    } else {
      OpenShape(s.runs, p, v, c);
    }
  }

  lemma ExtendShape(runs: seq<Run>, p: seq<Vertex>, v: Vertex)
    requires |runs| > 0 && CutOf(runs, p)
    ensures CutOf(Extend(runs, v), p + [v])
  {
    var n := |runs|;
    var init := runs[..n - 1];
    var last := runs[n - 1];
    var r := Run(last.common, last.verts + [v]);
    var t := Extend(runs, v);
    assert runs == init + [last];
    assert t == init + [r];
    FlattenAppend(init, last);
    FlattenAppend(init, r);
    forall i, j | 0 <= i < j < |t| && j == i + 1 ensures t[i].common != t[j].common {
      assert t[i] == runs[i];
      assert t[j].common == runs[j].common;
    }
  }

  lemma OpenShape(runs: seq<Run>, p: seq<Vertex>, v: Vertex, c: bool)
    requires CutOf(runs, p)
    requires !(|runs| > 0 && runs[|runs| - 1].common == c)
    ensures CutOf(runs + [Run(c, [v])], p + [v])
  {
    var t := runs + [Run(c, [v])];
    FlattenAppend(runs, Run(c, [v]));
    forall i, j | 0 <= i < j < |t| && j == i + 1 ensures t[i].common != t[j].common {
      assert t[i] == runs[i];
    }
  }

  /** The scan cuts the loop into non-empty runs of alternating kind whose
      concatenation is the loop. */
  lemma {:induction false} ClassifyShape(loop: seq<Vertex>, chain: seq<Vertex>)
    ensures CutOf(Classify(loop, chain).runs, loop)
    decreases |loop|
  {
    if loop != [] {
      var p := loop[..|loop| - 1];
      var v := loop[|loop| - 1];
      ClassifyShape(p, chain);
      StepShape(Classify(p, chain), loop);
    }
  }

  /** One step appends the vertex to the common vertices exactly when it is
      still in the copy. */
  lemma StepCommon(s: Scan, v: Vertex)
    ensures Concat(Kind(Step(s, v).runs, true)) == Concat(Kind(s.runs, true)) + (if v in s.rest then [v] else [])
  {
    StepKinds(s, v);
    if v in s.rest {
      var K := Kind(s.runs, true);
      var n := |s.runs|;
      if n > 0 && s.runs[n - 1].common {
        ConcatGrowLast(K, v);
      } else {
        ConcatAppend(K, [[v]]);
        ConcatSingle([v]);
      }
    }
  }

  /** One step erases one occurrence of a common vertex from the copy; the
      not-common runs stay empty exactly when the vertex is common. */
  lemma StepRest(s: Scan, v: Vertex)
    ensures Step(s, v).rest == (if v in s.rest then RemoveFirst(s.rest, v) else s.rest)
    ensures Kind(Step(s, v).runs, false) == [] <==> Kind(s.runs, false) == [] && v in s.rest
  {
    StepKinds(s, v);
  }

  /** Appending a vertex to the last run appends it to the concatenation. */
  lemma {:induction false} ConcatGrowLast(K: seq<seq<Vertex>>, v: Vertex)
    requires |K| > 0
    ensures Concat(K[..|K| - 1] + [K[|K| - 1] + [v]]) == Concat(K) + [v]
  {
    var m := |K| - 1;
    var K' := K[..m] + [K[m] + [v]];
    var front := Concat(K[..m]);
    assert Concat(K') == front + (K[m] + [v]) by {
      assert K'[..|K'| - 1] == K[..m];
    }
    assert Concat(K) == front + K[m];
    assert front + (K[m] + [v]) == (front + K[m]) + [v];
  }

  /** No not-common run exists exactly when the scanned prefix fits in the
      chain (with multiplicity), and then the common runs spell the prefix. */
  ghost predicate Fits(s: Scan, prefix: seq<Vertex>, chain: seq<Vertex>)
  {
    && (Kind(s.runs, false) == [] <==> multiset(prefix) <= multiset(chain))
    && (Kind(s.runs, false) == [] ==> Concat(Kind(s.runs, true)) == prefix)
  }

  lemma StepFits(s: Scan, loop: seq<Vertex>, chain: seq<Vertex>)
    requires |loop| > 0 && Fits(s, loop[..|loop| - 1], chain)
    requires multiset(Concat(Kind(s.runs, true))) + multiset(s.rest) == multiset(chain)
    ensures Fits(Step(s, loop[|loop| - 1]), loop, chain)
  {
    var p := loop[..|loop| - 1];
    var v := loop[|loop| - 1];
    assert loop == p + [v];
    assert multiset(loop) == multiset(p) + multiset{v};
    StepCommon(s, v);
    StepRest(s, v);
    var t := Step(s, v);
    assert (Kind(s.runs, false) == []) <==> multiset(p) <= multiset(chain);
    assert Kind(s.runs, false) == [] ==> multiset(Concat(Kind(s.runs, true))) == multiset(p);
    assert (Kind(t.runs, false) == []) <==> (Kind(s.runs, false) == []) && v in s.rest;
    assert v in s.rest <==> v in multiset(s.rest);
    CountingStep(Kind(s.runs, false) == [], Kind(t.runs, false) == [], v in s.rest,
      multiset(Concat(Kind(s.runs, true))), multiset(s.rest), multiset(chain), multiset(p), v);
    if Kind(t.runs, false) == [] {
      assert v in s.rest && Concat(Kind(s.runs, true)) == p;
      assert Concat(Kind(t.runs, true)) == p + [v];
    }
  }

  /** Moving one occurrence from the rest to the common vertices keeps the
      total. */
  lemma MoveOne(mCommon: multiset<Vertex>, mRest: multiset<Vertex>, v: Vertex)
    requires v in mRest
    ensures (mCommon + multiset{v}) + (mRest - multiset{v}) == mCommon + mRest
  {
  }

  lemma {:induction false} ClassifyFits(loop: seq<Vertex>, chain: seq<Vertex>)
    ensures Fits(Classify(loop, chain), loop, chain)
    decreases |loop|
  {
    if loop == [] {
      assert Kind([], false) == [] && Kind([], true) == [];
    } else {
      var p := loop[..|loop| - 1];
      ClassifyFits(p, chain);
      ClassifyConsumes(p, chain);
      StepFits(Classify(p, chain), loop, chain);
    }
  }

  /** Each common vertex removes one occurrence from the chain copy: the
      common vertices and what is left of the copy together are the chain. */
  lemma {:induction false} ClassifyConsumes(loop: seq<Vertex>, chain: seq<Vertex>)
    ensures var s := Classify(loop, chain);
      multiset(Concat(Kind(s.runs, true))) + multiset(s.rest) == multiset(chain)
    decreases |loop|
  {
    if loop == [] {
      assert Kind([], true) == [];
    } else {
      var p := loop[..|loop| - 1];
      var v := loop[|loop| - 1];
      ClassifyConsumes(p, chain);
      var s := Classify(p, chain);
      StepCommon(s, v);
      StepRest(s, v);
      if v in s.rest {
        MoveOne(multiset(Concat(Kind(s.runs, true))), multiset(s.rest), v);
      }
    }
  }

  /** Both directions: the runs alternate, so they are an interleaving of the
      runs of the first vertex's kind with the runs of the other kind. */
  lemma {:induction false} AlternatingInterleave(runs: seq<Run>)
    requires Alternating(runs) && runs != []
    ensures Flatten(runs) == Concat(Interleave(Kind(runs, runs[0].common), Kind(runs, !runs[0].common)))
    ensures |Kind(runs, runs[0].common)|
            == |Kind(runs, !runs[0].common)| + (if runs[|runs| - 1].common == runs[0].common then 1 else 0)
    decreases |runs|
  {
    var r := runs[0];
    var tail := runs[1..];
    assert runs == [r] + tail;
    FlattenCons(r, tail);
    var X := Kind(tail, r.common);
    var Y := Kind(tail, !r.common);
    KindCons(r, tail, r.common);
    KindCons(r, tail, !r.common);
    assert Kind(runs, r.common) == [r.verts] + X;
    assert Kind(runs, !r.common) == Y;
    assert Interleave([r.verts] + X, Y) == [r.verts] + Interleave(Y, X);
    ConcatCons(r.verts, Interleave(Y, X));
    if tail == [] {
      assert Flatten(tail) == [];
    } else {
      assert runs[0].common != runs[1].common;
      assert tail[0].common == !r.common;
      forall i, j | 0 <= i < j < |tail| && j == i + 1 ensures tail[i].common != tail[j].common {
        assert tail[i] == runs[i + 1] && tail[j] == runs[j + 1];
      }
      AlternatingInterleave(tail);
    }
  }

  /** The positions of the interleaved runs: xs at even, ys at odd indices. */
  lemma {:induction false} InterleaveAt<T>(xs: seq<T>, ys: seq<T>)
    requires |xs| == |ys| || |xs| == |ys| + 1
    ensures |Interleave(xs, ys)| == |xs| + |ys|
    ensures forall i :: 0 <= i < |xs| ==> Interleave(xs, ys)[2 * i] == xs[i]
    ensures forall i :: 0 <= i < |ys| ==> Interleave(xs, ys)[2 * i + 1] == ys[i]
    decreases |xs| + |ys|
  {
    if xs != [] {
      InterleaveAt(ys, xs[1..]);
      var I := Interleave(xs, ys);
      var J := Interleave(ys, xs[1..]);
      assert I == [xs[0]] + J;
      forall i | 0 < i < |xs| ensures I[2 * i] == xs[i] {
        assert I[2 * i] == J[2 * (i - 1) + 1];
      }
      forall i | 0 <= i < |ys| ensures I[2 * i + 1] == ys[i] {
        assert I[2 * i + 1] == J[2 * i];
      }
    }
  }

  /** With one run more on the left, the last run of the interleaving is the
      last left run. */
  lemma {:induction false} InterleaveLast<T>(xs: seq<T>, ys: seq<T>)
    requires |xs| == |ys| + 1
    ensures Interleave(xs, ys) == Interleave(xs[..|xs| - 1], ys) + [xs[|xs| - 1]]
    decreases |ys|
  {
    var m := |xs| - 1;
    if ys == [] {
      assert Interleave(xs, ys) == [xs[0]] + Interleave(ys, xs[1..]);
      assert xs[1..] == [] && xs[..m] == [];
    } else {
      InterleaveLast(xs[1..], ys[1..]);
      assert xs[1..][..m - 1] == xs[..m][1..];
      assert xs[1..][m - 1] == xs[m];
      assert Interleave(xs, ys) == [xs[0]] + ([ys[0]] + Interleave(xs[1..], ys[1..]));
      assert Interleave(xs[..m], ys) == [xs[0]] + ([ys[0]] + Interleave(xs[..m][1..], ys[1..]));
    }
  }

  /** Merging the last run into the first one reads the same runs starting
      from the last run's first vertex. */
  lemma MergeRotates(loop: seq<Vertex>, xs: seq<seq<Vertex>>, ys: seq<seq<Vertex>>)
    requires |loop| > 0 && NonEmptyRuns(xs) && |xs| >= 2 && |xs| == |ys| + 1
    requires Concat(Interleave(xs, ys)) == loop
    requires loop[0] == xs[0][0]
    ensures |xs[|xs| - 1]| <= |loop|
    ensures Concat(Interleave(MergeTail(loop, xs), ys)) == Rotate(loop, |loop| - |xs[|xs| - 1]|)
  {
    var m := |xs| - 1;
    var mid := Interleave(ys, xs[1..m]);
    InterleaveLast(xs, ys);
    var P := Concat(Interleave(xs[..m], ys));
    ConcatAppend(Interleave(xs[..m], ys), [xs[m]]);
    ConcatSingle(xs[m]);
    assert loop == P + xs[m];
    var merged := [xs[m] + xs[0]] + xs[1..m];
    assert MergeTail(loop, xs) == merged;
    assert xs[..m][1..] == xs[1..m] && merged[1..] == xs[1..m];
    assert Interleave(xs[..m], ys) == [xs[0]] + mid;
    assert Interleave(merged, ys) == [xs[m] + xs[0]] + mid;
    ConcatCons(xs[0], mid);
    ConcatCons(xs[m] + xs[0], mid);
    assert P == xs[0] + Concat(mid);
    assert Concat(Interleave(merged, ys)) == xs[m] + P;
    assert loop[|P|..] == xs[m] && loop[..|P|] == P;
  }

  /** Before the seam merge, the runs of the first vertex's kind and of the
      other kind interleave to the loop. */
  lemma RunsInterleave(loop: seq<Vertex>, chain: seq<Vertex>)
    requires Classify(loop, chain).runs != []
    ensures var R := Classify(loop, chain).runs;
      var xs := Kind(R, R[0].common);
      var ys := Kind(R, !R[0].common);
      && NonEmptyRuns(xs) && NonEmptyRuns(ys)
      && Concat(Interleave(xs, ys)) == loop
      && |xs| == |ys| + (if R[|R| - 1].common == R[0].common then 1 else 0)
      && loop[0] == xs[0][0]
  {
    var R := Classify(loop, chain).runs;
    ClassifyShape(loop, chain);
    KindNonEmpty(R, true);
    KindNonEmpty(R, false);
    AlternatingInterleave(R);
    KindCons(R[0], R[1..], R[0].common);
    assert R == [R[0]] + R[1..];
    FlattenCons(R[0], R[1..]);
  }

  /** The decomposition is a cyclic cut of the boundary: read in order, the
      runs spell the loop from one of its vertices on, they are non-empty, and
      after the seam merge there are as many common as not-common runs (or a
      single common run covering the whole loop). */
  lemma DecomposeIsCyclicCut(loop: seq<Vertex>, chain: seq<Vertex>)
    requires Decompose(loop, chain).comm != []
    ensures var d := Decompose(loop, chain);
      && NonEmptyRuns(d.comm) && NonEmptyRuns(d.notComm)
      && (d.notComm != [] ==> |d.comm| == |d.notComm|)
      && (d.notComm == [] ==> |d.comm| == 1)
      && exists k :: 0 <= k <= |loop| && Concat(RunOrder(d)) == Rotate(loop, k)
  {
    var d := Decompose(loop, chain);
    var sc := Classify(loop, chain);
    var R := sc.runs;
    assert R != [];
    RunsInterleave(loop, chain);
    var F := R[0].common;
    var xs := Kind(R, F);
    var ys := Kind(R, !F);
    var closes := R[|R| - 1].common == F;
    var merged := if closes then MergeTail(loop, xs) else xs;
    assert d == if F then Decomposition(merged, ys, sc.rest, true) else Decomposition(ys, merged, sc.rest, false);
    assert RunOrder(d) == Interleave(merged, ys);
    SeamCut(loop, xs, ys, closes);
  }

  /** The seam merge on runs that interleave to the loop: the runs stay
      non-empty, the two kinds end up equal in number (or a single run
      alone), and they read as a rotation of the loop. */
  lemma SeamCut(loop: seq<Vertex>, xs: seq<seq<Vertex>>, ys: seq<seq<Vertex>>, closes: bool)
    requires |loop| > 0 && |xs| > 0 && NonEmptyRuns(xs) && NonEmptyRuns(ys)
    requires Concat(Interleave(xs, ys)) == loop && loop[0] == xs[0][0]
    requires |xs| == |ys| + (if closes then 1 else 0)
    ensures var merged := if closes then MergeTail(loop, xs) else xs;
      && NonEmptyRuns(merged)
      && (|merged| == |ys| || (|merged| == 1 && ys == []))
      && exists k :: 0 <= k <= |loop| && Concat(Interleave(merged, ys)) == Rotate(loop, k)
  {
    if closes && |xs| >= 2 {
      MergeRotates(loop, xs, ys);
    } else {
      assert Concat(Interleave(xs, ys)) == Rotate(loop, 0);
    }
  }

  /** Bracketing joins each not-common run to its cyclic neighbours in the
      run order: the vertex before it is the last vertex of the run before
      it, the vertex after it the first vertex of the run after it. */
  lemma BracketedAdjacent(d: Decomposition, j: nat)
    requires NonEmptyRuns(d.comm) && |d.comm| == |d.notComm| && j < |d.notComm|
    ensures var I := RunOrder(d);
      var p := if d.firstIsCommon then 2 * j + 1 else 2 * j;
      var before := if p > 0 then p - 1 else |I| - 1;
      var after := if p + 1 < |I| then p + 1 else 0;
      && Bracketable(d)
      && |I| == 2 * |d.notComm| && p < |I|
      && I[p] == d.notComm[j]
      && |I[before]| > 0 && |I[after]| > 0
      && Bracketed(d)[j] == [I[before][|I[before]| - 1]] + I[p] + [I[after][0]]
  {
    var k := |d.comm|;
    var I := RunOrder(d);
    if d.firstIsCommon {
      InterleaveAt(d.comm, d.notComm);
      assert I[2 * j + 1] == d.notComm[j];
      assert I[2 * j] == d.comm[j];
      if j + 1 < k {
        assert I[2 * (j + 1)] == d.comm[j + 1];
      } else {
        assert I[2 * 0] == d.comm[0];
      }
    } else {
      InterleaveAt(d.notComm, d.comm);
      assert I[2 * j] == d.notComm[j];
      assert I[2 * j + 1] == d.comm[j];
      if j > 0 {
        assert I[2 * (j - 1) + 1] == d.comm[j - 1];
      } else {
        assert I[2 * (k - 1) + 1] == d.comm[k - 1];
      }
    }
  }

  /** One step, seen from a single vertex w: the common vertices grow by the
      fresh vertex v exactly when v is still in the copy; then w is common
      exactly when it is in the scanned prefix and in the chain. */
  lemma MarkStep(common: seq<Vertex>, common': seq<Vertex>, rest: seq<Vertex>, chain: seq<Vertex>,
                 p: seq<Vertex>, v: Vertex, w: Vertex)
    requires common' == common + (if v in rest then [v] else [])
    requires multiset(common) + multiset(rest) == multiset(chain)
    requires w in common <==> w in p && w in chain
    requires v !in common
    ensures w in common' <==> w in p + [v] && w in chain
  {
    FreshVertex(multiset(common), multiset(rest), multiset(chain), v);
    assert w in p + [v] <==> w in p || w == v;
  }

  /** A vertex the common vertices do not hold is in the rest of the copy
      exactly when it is in the chain. */
  lemma FreshVertex(mCommon: multiset<Vertex>, mRest: multiset<Vertex>, mChain: multiset<Vertex>, v: Vertex)
    requires mCommon + mRest == mChain && v !in mCommon
    ensures v in mRest <==> v in mChain
  {
    assert mChain[v] == mCommon[v] + mRest[v];
  }

  /** Both directions, for a loop without repeated vertices: a boundary
      vertex lands in a common run exactly when the chain holds it. */
  lemma {:induction false} CommonIffInChain(loop: seq<Vertex>, chain: seq<Vertex>, w: Vertex)
    requires forall i, j :: 0 <= i < j < |loop| ==> loop[i] != loop[j]
    ensures w in Concat(Kind(Classify(loop, chain).runs, true)) <==> w in loop && w in chain
    decreases |loop|
  {
    if loop == [] {
      assert Kind([], true) == [];
    } else {
      var p := loop[..|loop| - 1];
      var v := loop[|loop| - 1];
      CommonIffInChain(p, chain, w);
      CommonIffInChain(p, chain, v);
      ClassifyConsumes(p, chain);
      var s := Classify(p, chain);
      StepCommon(s, v);
      MarkStep(Concat(Kind(s.runs, true)), Concat(Kind(Step(s, v).runs, true)), s.rest, chain, p, v, w);
      assert loop == p + [v];
    }
  }

  /** Both directions: no vertex of the loop is left out of the common runs
      exactly when the loop's vertices are, with multiplicity, among the
      chain's; the common runs then spell the whole loop, and with what is
      left of the copy they make up the chain. */
  lemma AllCommonIff(loop: seq<Vertex>, chain: seq<Vertex>)
    ensures var s := Classify(loop, chain);
      && (Kind(s.runs, false) == [] <==> multiset(loop) <= multiset(chain))
      && (Kind(s.runs, false) == [] ==> Concat(Kind(s.runs, true)) == loop)
      && multiset(Concat(Kind(s.runs, true))) + multiset(s.rest) == multiset(chain)
  {
    ClassifyFits(loop, chain);
    ClassifyConsumes(loop, chain);
  }

  /** The counting argument of AllCommonIff, on its own: `within` says the
      prefix fits in the chain, `within'` that the prefix and v do. */
  lemma CountingStep(within: bool, within': bool, inRest: bool,
                     mCommon: multiset<Vertex>, mRest: multiset<Vertex>, mChain: multiset<Vertex>,
                     mPrefix: multiset<Vertex>, v: Vertex)
    requires within <==> mPrefix <= mChain
    requires within ==> mCommon == mPrefix
    requires mCommon + mRest == mChain
    requires within' <==> within && inRest
    requires inRest <==> v in mRest
    ensures within' <==> mPrefix + multiset{v} <= mChain
  {
    if within {
      MultisetStep(mPrefix, mRest, mChain, v);
    } else if mPrefix + multiset{v} <= mChain {
      WithinShrinks(mPrefix, mChain, v);
    }
  }

  lemma WithinShrinks(mp: multiset<Vertex>, mc: multiset<Vertex>, v: Vertex)
    requires mp + multiset{v} <= mc
    ensures mp <= mc
  {
    assert mp <= mp + multiset{v};
  }

  /** The counting step behind AllCommonIff: with the rest of the copy being
      what the prefix did not consume, one more vertex fits in the chain
      exactly when the rest still holds it. */
  lemma MultisetStep(mp: multiset<Vertex>, mr: multiset<Vertex>, mc: multiset<Vertex>, v: Vertex)
    requires mp + mr == mc
    ensures v in mr <==> mp + multiset{v} <= mc
  {
    if v !in mr {
      assert (mp + multiset{v})[v] > mc[v];
    }
  }
}
