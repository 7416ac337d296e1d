// What FaceEdgeMap::split_overlaps_on_boundary does with one face and one
// overlap chain (face_face.cc:143-250): classify the face's boundary against
// the chain, then either leave the face alone, report it as a whole overlap,
// fail, or build the chains along which the kernel splits it.
module Overlap {
  import opened Base
  import opened Runs
  import opened Topology

  /** The decision for one face: no vertex in common (the face is passed
      over), all vertices in common (the face itself overlaps), a split along
      `chains`, or one of the fatal conditions. */
  datatype Plan = Skip | Whole | Cut(chains: seq<seq<Vertex>>) | Abort(error: Error)

  // ---------------------------------------------------------------------------
  // Specification functions

  /** A connection path without its two ends (the ranges
      [next(begin), prev(end)) of lines 228-229 and 239-240). */
  function Interior(path: seq<Vertex>): (r: seq<Vertex>)
    ensures |path| >= 2 ==> path == [path[0]] + r + [path[|path| - 1]]
    ensures |path| < 2 ==> r == []
  {
    if |path| < 2 then [] else path[1..|path| - 1]
  }

  /** The path connect_entities finds for a common run: from its last vertex
      back to its first, through the unmatched vertices of the chain. */
  function Repair(k: Kernel, run: seq<Vertex>, pool: seq<Vertex>): Option<seq<Vertex>>
    requires |run| > 0
  {
    k.connect(run[|run| - 1], run[0], pool)
  }

  /** The connections of all common runs, or None when one cannot be found. */
  function Connections(k: Kernel, comm: seq<seq<Vertex>>, pool: seq<Vertex>): (r: Option<seq<seq<Vertex>>>)
    requires NonEmptyRuns(comm)
    ensures r.Some? ==> |r.value| == |comm|
    decreases |comm|
  {
    if comm == [] then Some([])
    else
      var n := |comm| - 1;
      match Connections(k, comm[..n], pool)
      case None => None
      case Some(conns) =>
        match Repair(k, comm[n], pool)
        case None => None
        case Some(path) => Some(conns + [path])
  }

  /** split_chains[0]: every common run preceded by the inner vertices of its
      connection (lines 222-231). */
  function OuterChain(comm: seq<seq<Vertex>>, conns: seq<seq<Vertex>>): seq<Vertex>
    requires |conns| == |comm|
    decreases |comm|
  {
    if comm == [] then []
    else
      var n := |comm| - 1;
      OuterChain(comm[..n], conns[..n]) + Interior(conns[n]) + comm[n]
  }

  /** A bracketed run and a connection with the same two ends (line 236). */
  predicate Matches(run: seq<Vertex>, conn: seq<Vertex>)
  {
    |run| > 0 && |conn| > 0 && run[0] == conn[0] && run[|run| - 1] == conn[|conn| - 1]
  }

  /** The first connection whose ends match the run (the inner loop of lines
      234-244 with its break). */
  function FirstMatch(run: seq<Vertex>, conns: seq<seq<Vertex>>): (r: Option<nat>)
    ensures r.Some? ==> r.value < |conns| && Matches(run, conns[r.value])
    ensures r.Some? ==> forall m :: 0 <= m < r.value ==> !Matches(run, conns[m])
    ensures r.None? <==> forall m :: 0 <= m < |conns| ==> !Matches(run, conns[m])
  {
    if conns == [] then None
    else if Matches(run, conns[0]) then Some(0)
    else
      match FirstMatch(run, conns[1..])
      case None => None
      case Some(m) => Some(m + 1)
  }

  /** The further split chains (lines 232-245): every bracketed run that has a
      matching connection, closed by that connection walked backwards. */
  function ClosingChains(runs: seq<seq<Vertex>>, conns: seq<seq<Vertex>>): seq<seq<Vertex>>
    decreases |runs|
  {
    if runs == [] then []
    else
      var n := |runs| - 1;
      ClosingChains(runs[..n], conns)
      + match FirstMatch(runs[n], conns)
        case None => []
        case Some(m) => [runs[n] + Reverse(Interior(conns[m]))]
  }

  /** The decision for one face whose boundary is `loop`, against the
      overlap chain `chain` (lines 144-246). */
  function OverlapPlan(loop: seq<Vertex>, chain: seq<Vertex>, k: Kernel): Plan
  {
    var d := Decompose(loop, chain);
    if d.comm == [] then Skip
    else if d.notComm == [] then
      if d.rest == [] then Whole else Abort(MalformedOverlapWitness)
    else
      DecomposeIsCyclicCut(loop, chain);
      match Connections(k, d.comm, d.rest)
      case None => Abort(UnrepairablePath)
      case Some(conns) => Cut([OuterChain(d.comm, conns)] + ClosingChains(Bracketed(d), conns))
  }

  // ---------------------------------------------------------------------------
  // Methods: the loops of the source

  /** The connection loop (lines 220-231): repairs every common run and
      collects split_chains[0] on the way. */
  method ConnectRuns(k: Kernel, comm: seq<seq<Vertex>>, pool: seq<Vertex>)
    returns (outer: seq<Vertex>, conns: seq<seq<Vertex>>, ok: bool)
    requires NonEmptyRuns(comm)
    ensures ok <==> Connections(k, comm, pool).Some?
    ensures ok ==> conns == Connections(k, comm, pool).value && outer == OuterChain(comm, conns)
  {
    outer := [];
    conns := [];
    for c := 0 to |comm|
      invariant Connections(k, comm[..c], pool) == Some(conns)
      invariant |conns| == c && outer == OuterChain(comm[..c], conns)
    {
      var path := k.connect(comm[c][|comm[c]| - 1], comm[c][0], pool);
      assert comm[..c + 1][..c] == comm[..c];
      if path.None? {
        PrefixFails(k, comm, pool, c + 1);
        return outer, conns, false;
      }
      assert (conns + [path.value])[..c] == conns;
      conns := conns + [path.value];
      outer := outer + Interior(path.value) + comm[c];
    }
    assert comm[..|comm|] == comm;
    ok := true;
  }

  /** The matching loop (lines 234-244) for one bracketed run. */
  method FindConnection(run: seq<Vertex>, conns: seq<seq<Vertex>>) returns (r: Option<nat>)
    ensures r == FirstMatch(run, conns)
  {
    for m := 0 to |conns|
      invariant forall i :: 0 <= i < m ==> !Matches(run, conns[i])
    {
      if |run| > 0 && |conns[m]| > 0 && run[0] == conns[m][0] && run[|run| - 1] == conns[m][|conns[m]| - 1] {
        FirstMatchAt(run, conns, m);
        return Some(m);
      }
    }
    r := None;
  }

  /** The loop over the bracketed runs (lines 232-245). */
  method CloseRuns(runs: seq<seq<Vertex>>, conns: seq<seq<Vertex>>) returns (chains: seq<seq<Vertex>>)
    ensures chains == ClosingChains(runs, conns)
  {
    chains := [];
    for j := 0 to |runs|
      invariant chains == ClosingChains(runs[..j], conns)
    {
      assert runs[..j + 1][..j] == runs[..j];
      var m := FindConnection(runs[j], conns);
      if m.Some? {
        chains := chains + [runs[j] + Reverse(Interior(conns[m.value]))];
      }
    }
    assert runs[..|runs|] == runs;
  }

  /** Lines 144-246 for one face: the classification, the seam merge, the
      decision, the bracketing and the repair of the common runs. */
  method PlanFace(loop: seq<Vertex>, chain: seq<Vertex>, k: Kernel) returns (p: Plan)
    ensures p == OverlapPlan(loop, chain, k)
  {
    var d := ClassifyBoundary(loop, chain);
    if d.comm == [] {
      return Skip;
    }
    if d.notComm == [] && d.rest == [] {
      return Whole;
    }
    if d.notComm == [] {
      return Abort(MalformedOverlapWitness);
    }
    DecomposeIsCyclicCut(loop, chain);
    var runs := Bracket(d);
    var outer, conns, ok := ConnectRuns(k, d.comm, d.rest);
    if !ok {
      return Abort(UnrepairablePath);
    }
    var closing := CloseRuns(runs, conns);
    p := Cut([outer] + closing);
  }

  // ---------------------------------------------------------------------------
  // Lemmas

  /** Once a prefix of the runs cannot be repaired, none of the runs can. */
  lemma {:induction false} PrefixFails(k: Kernel, comm: seq<seq<Vertex>>, pool: seq<Vertex>, c: nat)
    requires NonEmptyRuns(comm) && 0 < c <= |comm|
    requires Connections(k, comm[..c], pool).None?
    ensures Connections(k, comm, pool).None?
    decreases |comm| - c
  {
    if c < |comm| {
      assert comm[..c + 1][..c] == comm[..c];
      PrefixFails(k, comm, pool, c + 1);
    } else {
      assert comm[..c] == comm;
    }
  }

  lemma FirstMatchAt(run: seq<Vertex>, conns: seq<seq<Vertex>>, m: nat)
    requires m < |conns| && Matches(run, conns[m])
    requires forall i :: 0 <= i < m ==> !Matches(run, conns[i])
    ensures FirstMatch(run, conns) == Some(m)
  {
    var r := FirstMatch(run, conns);
    assert r.Some?;
  }

  /** A connection is found for every common run exactly when connect_entities
      succeeds on each of them. */
  lemma {:induction false} ConnectionsIff(k: Kernel, comm: seq<seq<Vertex>>, pool: seq<Vertex>)
    requires NonEmptyRuns(comm)
    ensures Connections(k, comm, pool).Some? <==> forall c :: 0 <= c < |comm| ==> Repair(k, comm[c], pool).Some?
    ensures Connections(k, comm, pool).Some? ==>
      var conns := Connections(k, comm, pool).value;
      |conns| == |comm| && forall c :: 0 <= c < |comm| ==> conns[c] == Repair(k, comm[c], pool).value
    decreases |comm|
  {
    if comm != [] {
      var n := |comm| - 1;
      ConnectionsIff(k, comm[..n], pool);
      assert forall c :: 0 <= c < n ==> comm[..n][c] == comm[c];
    }
  }

  /** Every common run is kept, in order, in the outer chain, after the inner
      vertices of its connection. */
  lemma {:induction false} OuterChainHoldsRuns(comm: seq<seq<Vertex>>, conns: seq<seq<Vertex>>)
    requires |conns| == |comm|
    ensures multiset(Concat(comm)) <= multiset(OuterChain(comm, conns))
    ensures |OuterChain(comm, conns)| >= |Concat(comm)|
    decreases |comm|
  {
    if comm != [] {
      var n := |comm| - 1;
      OuterChainHoldsRuns(comm[..n], conns[..n]);
      var O := OuterChain(comm[..n], conns[..n]);
      assert multiset(O + Interior(conns[n]) + comm[n]) == multiset(O) + multiset(Interior(conns[n])) + multiset(comm[n]);
      assert multiset(Concat(comm)) == multiset(Concat(comm[..n])) + multiset(comm[n]);
    }
  }

  /** Every closing chain is a bracketed run followed by the inner vertices of
      a connection with the same two ends, walked backwards; there is at most
      one per bracketed run. */
  lemma {:induction false} ClosingChainsShape(runs: seq<seq<Vertex>>, conns: seq<seq<Vertex>>)
    ensures |ClosingChains(runs, conns)| <= |runs|
    ensures forall x :: x in ClosingChains(runs, conns) ==>
      exists j, m :: 0 <= j < |runs| && 0 <= m < |conns| && Matches(runs[j], conns[m])
        && x == runs[j] + Reverse(Interior(conns[m]))
    decreases |runs|
  {
    if runs != [] {
      var n := |runs| - 1;
      ClosingChainsShape(runs[..n], conns);
      forall x | x in ClosingChains(runs, conns)
        ensures exists j, m ::
          0 <= j < |runs| && 0 <= m < |conns| && Matches(runs[j], conns[m]) && x == runs[j] + Reverse(Interior(conns[m]))
      {
        if x in ClosingChains(runs[..n], conns) {
          var j, m :| 0 <= j < n && 0 <= m < |conns| && Matches(runs[..n][j], conns[m])
            && x == runs[..n][j] + Reverse(Interior(conns[m]));
          assert runs[..n][j] == runs[j];
        } else {
          var m := FirstMatch(runs[n], conns).value;
          assert x == runs[n] + Reverse(Interior(conns[m]));
        }
      }
    }
  }

  /** Before and after the seam merge, a kind of run is missing exactly when
      the scan found none of it, and the rest of the copy is the scan's. */
  lemma DecomposeKinds(loop: seq<Vertex>, chain: seq<Vertex>)
    ensures var d := Decompose(loop, chain);
      var s := Classify(loop, chain);
      && (d.comm == [] <==> Kind(s.runs, true) == [])
      && (d.notComm == [] <==> Kind(s.runs, false) == [])
      && d.rest == s.rest
  {
    var R := Classify(loop, chain).runs;
    if R == [] {
      assert Kind(R, true) == [] && Kind(R, false) == [];
    } else {
      RunsInterleave(loop, chain);
    }
  }

  /** A list of non-empty runs spells nothing exactly when it is empty. */
  lemma ConcatEmpty(K: seq<seq<Vertex>>)
    requires NonEmptyRuns(K)
    ensures Concat(K) == [] <==> K == []
  {
    if K != [] {
      var n := |K| - 1;
      assert |K[n]| > 0;
    }
  }

  /** The chain holds no vertex of the loop. */
  ghost predicate Disjoint(loop: seq<Vertex>, chain: seq<Vertex>)
  {
    forall i :: 0 <= i < |loop| ==> loop[i] !in chain
  }

  lemma DisjointAppend(p: seq<Vertex>, v: Vertex, chain: seq<Vertex>)
    ensures Disjoint(p + [v], chain) <==> Disjoint(p, chain) && v !in chain
  {
    if Disjoint(p, chain) && v !in chain {
      forall i | 0 <= i < |p + [v]|
        ensures (p + [v])[i] !in chain
      {
        if i < |p| {
          assert (p + [v])[i] == p[i];
        }
      }
    }
    if Disjoint(p + [v], chain) {
      assert (p + [v])[|p|] == v;
      forall i | 0 <= i < |p|
        ensures p[i] !in chain
      {
        assert (p + [v])[i] == p[i];
      }
    }
  }

  /** No vertex of the loop is common exactly when the chain holds none of
      them; until one is found the copy is the whole chain. */
  lemma {:induction false} NoneCommonIff(loop: seq<Vertex>, chain: seq<Vertex>)
    ensures Concat(Kind(Classify(loop, chain).runs, true)) == [] <==> Disjoint(loop, chain)
    decreases |loop|
  {
    if loop == [] {
      assert Kind([], true) == [];
    } else {
      var p := loop[..|loop| - 1];
      var v := loop[|loop| - 1];
      NoneCommonIff(p, chain);
      ClassifyConsumes(p, chain);
      var s := Classify(p, chain);
      StepCommon(s, v);
      assert loop == p + [v];
      DisjointAppend(p, v, chain);
      NoneStep(Concat(Kind(s.runs, true)), Concat(Kind(Step(s, v).runs, true)), s.rest, chain, v,
        Disjoint(p, chain));
    }
  }

  /** The step of NoneCommonIff on its own. */
  lemma NoneStep(common: seq<Vertex>, common': seq<Vertex>, rest: seq<Vertex>, chain: seq<Vertex>,
                 v: Vertex, noneBefore: bool)
    requires common' == common + (if v in rest then [v] else [])
    requires common == [] <==> noneBefore
    requires multiset(common) + multiset(rest) == multiset(chain)
    ensures common' == [] <==> noneBefore && v !in chain
  {
    if common == [] {
      assert multiset(rest) == multiset(chain);
      assert v in rest <==> v in multiset(rest);
    }
  }

  /** The scan's common runs are empty exactly when the chain holds no
      vertex of the loop. */
  lemma NoCommonRunIff(loop: seq<Vertex>, chain: seq<Vertex>)
    ensures Kind(Classify(loop, chain).runs, true) == [] <==> Disjoint(loop, chain)
  {
    var R := Classify(loop, chain).runs;
    ClassifyShape(loop, chain);
    KindNonEmpty(R, true);
    ConcatEmpty(Kind(R, true));
    NoneCommonIff(loop, chain);
  }

  /** Both directions: a face is passed over exactly when its boundary shares
      no vertex with the chain. */
  lemma PlanSkipIff(loop: seq<Vertex>, chain: seq<Vertex>, k: Kernel)
    ensures OverlapPlan(loop, chain, k) == Skip <==> Disjoint(loop, chain)
  {
    DecomposeKinds(loop, chain);
    NoCommonRunIff(loop, chain);
  }

  /** Both directions: a face goes to the overlap output unsplit exactly when
      its boundary holds the chain's vertices, each as often as the chain. */
  lemma PlanWholeIff(loop: seq<Vertex>, chain: seq<Vertex>, k: Kernel)
    ensures OverlapPlan(loop, chain, k) == Whole <==> loop != [] && multiset(loop) == multiset(chain)
  {
    PlanOutcomes(loop, chain, k);
    AllWithin(loop, chain);
  }

  /** Both directions: the fatal "not all common vertices are linked" case is
      a boundary whose vertices all lie in the chain while the chain holds
      more. */
  lemma PlanMalformedIff(loop: seq<Vertex>, chain: seq<Vertex>, k: Kernel)
    ensures OverlapPlan(loop, chain, k) == Abort(MalformedOverlapWitness)
      <==> loop != [] && multiset(loop) <= multiset(chain) && multiset(loop) != multiset(chain)
  {
    PlanOutcomes(loop, chain, k);
    AllWithin(loop, chain);
  }

  /** Which branch of lines 175-202 the decomposition selects. */
  lemma PlanOutcomes(loop: seq<Vertex>, chain: seq<Vertex>, k: Kernel)
    ensures var d := Decompose(loop, chain);
      var P := OverlapPlan(loop, chain, k);
      && (P == Skip <==> d.comm == [])
      && (P == Whole <==> d.comm != [] && d.notComm == [] && d.rest == [])
      && (P == Abort(MalformedOverlapWitness) <==> d.comm != [] && d.notComm == [] && d.rest != [])
  {
    var d := Decompose(loop, chain);
    if d.comm != [] && d.notComm != [] {
      DecomposeIsCyclicCut(loop, chain);
      var P := OverlapPlan(loop, chain, k);
      assert P.Cut? || P == Abort(UnrepairablePath);
    }
  }

  /** What the three cases above rest on: with no not-common run, the
      decision depends only on the counts of the boundary's vertices. */
  lemma AllWithin(loop: seq<Vertex>, chain: seq<Vertex>)
    ensures var d := Decompose(loop, chain);
      && (d.notComm == [] <==> multiset(loop) <= multiset(chain))
      && (d.notComm == [] ==> (d.comm == [] <==> loop == []))
      && (d.notComm == [] ==> (d.rest == [] <==> multiset(loop) == multiset(chain)))
  {
    DecomposeKinds(loop, chain);
    AllCommonIff(loop, chain);
    var s := Classify(loop, chain);
    var R := s.runs;
    ClassifyShape(loop, chain);
    KindNonEmpty(R, true);
    ConcatEmpty(Kind(R, true));
    if Kind(R, false) == [] {
      RestCount(multiset(loop), multiset(s.rest), multiset(chain));
      assert s.rest == [] <==> multiset(s.rest) == multiset{};
    }
  }

  lemma RestCount(mLoop: multiset<Vertex>, mRest: multiset<Vertex>, mChain: multiset<Vertex>)
    requires mLoop + mRest == mChain
    ensures mRest == multiset{} <==> mLoop == mChain
  {
  }

  /** Both directions: the face is split exactly when it shares a vertex
      with the chain, some of its vertices are not in the chain, and every
      common run can be repaired. */
  lemma PlanCutIff(loop: seq<Vertex>, chain: seq<Vertex>, k: Kernel)
    ensures var d := Decompose(loop, chain);
      OverlapPlan(loop, chain, k).Cut? <==>
        && !Disjoint(loop, chain)
        && !(multiset(loop) <= multiset(chain))
        && NonEmptyRuns(d.comm)
        && forall c :: 0 <= c < |d.comm| ==> Repair(k, d.comm[c], d.rest).Some?
  {
    var d := Decompose(loop, chain);
    AllWithin(loop, chain);
    PlanOutcomes(loop, chain, k);
    PlanSkipIff(loop, chain, k);
    if d.comm != [] {
      DecomposeIsCyclicCut(loop, chain);
      ConnectionsIff(k, d.comm, d.rest);
    }
  }

  /** `x` is a bracketed run closed by the reversed inner vertices of a
      connection that has the run's two ends. */
  ghost predicate ClosesRun(d: Decomposition, k: Kernel, x: seq<Vertex>)
  {
    && Bracketable(d)
    && exists j, c :: 0 <= j < |d.notComm| && 0 <= c < |d.comm|
         && Repair(k, d.comm[c], d.rest).Some?
         && Matches(Bracketed(d)[j], Repair(k, d.comm[c], d.rest).value)
         && x == Bracketed(d)[j] + Reverse(Interior(Repair(k, d.comm[c], d.rest).value))
  }

  /** A split's first chain holds every common run; every further chain
      closes a bracketed run with a connection that has its two ends, and
      there is at most one per not-common run. */
  lemma PlanCutChains(loop: seq<Vertex>, chain: seq<Vertex>, k: Kernel)
    requires OverlapPlan(loop, chain, k).Cut?
    ensures var d := Decompose(loop, chain);
      var chains := OverlapPlan(loop, chain, k).chains;
      && |d.comm| == |d.notComm|
      && 1 <= |chains| <= 1 + |d.notComm|
      && multiset(Concat(d.comm)) <= multiset(chains[0])
      && forall x :: x in chains[1..] ==> ClosesRun(d, k, x)
  {
    var d := Decompose(loop, chain);
    DecomposeIsCyclicCut(loop, chain);
    ConnectionsIff(k, d.comm, d.rest);
    var conns := Connections(k, d.comm, d.rest).value;
    OuterChainHoldsRuns(d.comm, conns);
    ClosingChainsShape(Bracketed(d), conns);
    var chains := OverlapPlan(loop, chain, k).chains;
    assert chains[1..] == ClosingChains(Bracketed(d), conns);
    forall x | x in chains[1..]
      ensures ClosesRun(d, k, x)
    {
      var j, m :| 0 <= j < |Bracketed(d)| && 0 <= m < |conns| && Matches(Bracketed(d)[j], conns[m])
        && x == Bracketed(d)[j] + Reverse(Interior(conns[m]));
      assert conns[m] == Repair(k, d.comm[m], d.rest).value;
    }
  }

  /** Not-common run j is bracketed by its cyclic neighbours in boundary
      order, and the runs in that order spell the boundary from one of its
      vertices on. */
  ghost predicate BracketedInOrder(loop: seq<Vertex>, d: Decomposition, j: nat)
  {
    var I := RunOrder(d);
    var p := if d.firstIsCommon then 2 * j + 1 else 2 * j;
    var before := if p > 0 then p - 1 else |I| - 1;
    var after := if p + 1 < |I| then p + 1 else 0;
    && Bracketable(d)
    && (exists r :: 0 <= r <= |loop| && Concat(I) == Rotate(loop, r))
    && j < |d.notComm|
    && |I| == 2 * |d.notComm| && p < |I| && I[p] == d.notComm[j]
    && |I[before]| > 0 && |I[after]| > 0
    && Bracketed(d)[j] == [I[before][|I[before]| - 1]] + I[p] + [I[after][0]]
  }

  /** In a split, each not-common run is bracketed by its cyclic neighbours
      in boundary order. */
  lemma PlanCutBrackets(loop: seq<Vertex>, chain: seq<Vertex>, k: Kernel, j: nat)
    requires OverlapPlan(loop, chain, k).Cut? && j < |Decompose(loop, chain).notComm|
    ensures BracketedInOrder(loop, Decompose(loop, chain), j)
  {
    var d := Decompose(loop, chain);
    DecomposeIsCyclicCut(loop, chain);
    assert NonEmptyRuns(d.comm) && |d.comm| == |d.notComm|;
    var r :| 0 <= r <= |loop| && Concat(RunOrder(d)) == Rotate(loop, r);
    InOrder(loop, d, j, r);
  }

  lemma InOrder(loop: seq<Vertex>, d: Decomposition, j: nat, r: nat)
    requires NonEmptyRuns(d.comm) && |d.comm| == |d.notComm| && j < |d.notComm|
    requires r <= |loop| && Concat(RunOrder(d)) == Rotate(loop, r)
    ensures BracketedInOrder(loop, d, j)
  {
    BracketedAdjacent(d, j);
  }
}
