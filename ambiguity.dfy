// resolve_ambiguities (face_face.cc:379-472): when a vertex that bounds the
// cutting path occurs several times in one of the split loops, that loop is
// cut into cyclic sub-loops between consecutive occurrences; sub-loops whose
// polygon normal is against the face's canonical normal are internal, the
// others external; every internal sub-loop is folded into the first external
// sub-loop that contains a sample point of it, and each affected split loop
// is rebuilt from its external sub-loops.
module Ambiguity {
  import opened Base

  /** The sub-loops of one pass: the internal ones, and the external ones of
      every split loop (ch_segs_internal, ch_segs_external). */
  datatype Sorted = Sorted(internal: seq<seq<Vertex>>, external: seq<seq<seq<Vertex>>>)

  // ---------------------------------------------------------------------------
  // Specification functions

  /** The positions of v in the loop, in increasing order (lines 400-404). */
  function Occurrences(c: seq<Vertex>, v: Vertex): (P: seq<nat>)
    ensures forall j :: 0 <= j < |P| ==> P[j] < |c| && c[P[j]] == v
    ensures forall i, j :: 0 <= i < j < |P| ==> P[i] < P[j]
  {
    if c == [] then []
    else Occurrences(c[..|c| - 1], v) + (if c[|c| - 1] == v then [|c| - 1] else [])
  }

  /** Every position holding v is listed. */
  lemma {:induction false} OccurrencesComplete(c: seq<Vertex>, v: Vertex, p: nat)
    requires p < |c| && c[p] == v
    ensures p in Occurrences(c, v)
    decreases |c|
  {
    var n := |c| - 1;
    if p < n {
      assert c[..n][p] == c[p];
      OccurrencesComplete(c[..n], v, p);
    }
  }

  /** The loop from position s to position e, both included, wrapping
      around the end (lines 421-428). */
  function Piece(c: seq<Vertex>, s: nat, e: nat): seq<Vertex>
    requires s < |c| && e < |c| && s != e
  {
    if s < e then c[s..e + 1] else c[s..] + c[..e + 1]
  }

  /** Increasing positions in the loop, at least two of them. */
  ghost predicate Cuts(c: seq<Vertex>, P: seq<nat>)
  {
    && |P| >= 2
    && (forall j :: 0 <= j < |P| ==> P[j] < |c|)
    && (forall i, j :: 0 <= i < j < |P| ==> P[i] < P[j])
  }

  /** The position sub-loop j starts from: the previous one, cyclically. */
  function Before(P: seq<nat>, j: nat): nat
    requires j < |P|
  {
    if j == 0 then P[|P| - 1] else P[j - 1]
  }

  /** The sub-loops between consecutive positions (lines 417-420): the first
      runs from the last position round to the first. */
  function Pieces(c: seq<Vertex>, P: seq<nat>): (ps: seq<seq<Vertex>>)
    requires Cuts(c, P)
    ensures |ps| == |P|
  {
    seq(|P|, j requires 0 <= j < |P| => Piece(c, Before(P, j), P[j]))
  }

  /** The sub-loops of a split loop at v, or none when v occurs fewer than
      twice (line 415). */
  function PiecesAt(c: seq<Vertex>, v: Vertex): seq<seq<Vertex>>
  {
    var P := Occurrences(c, v);
    if |P| < 2 then [] else Pieces(c, P)
  }

  /** A sub-loop is internal when its polygon normal points against the
      expected normal (lines 429-430). */
  predicate Internal(g: Geometry, n: Vec, piece: seq<Vertex>)
  {
    Dot(n, g.polygonNormal(Points(g, piece))) < 0.0
  }

  /** The sub-loops of one kind, in order. */
  function Keep(g: Geometry, n: Vec, ps: seq<seq<Vertex>>, internal: bool): seq<seq<Vertex>>
  {
    if ps == [] then []
    else
      var m := |ps| - 1;
      Keep(g, n, ps[..m], internal) + (if Internal(g, n, ps[m]) == internal then [ps[m]] else [])
  }

  /** Lines 413-435: the sub-loops of every split loop, sorted into internal
      ones and the external ones of each split loop. */
  function Sort(g: Geometry, n: Vec, chains: seq<seq<Vertex>>, v: Vertex): (r: Sorted)
    ensures |r.external| == |chains|
  {
    if chains == [] then Sorted([], [])
    else
      var m := |chains| - 1;
      var s := Sort(g, n, chains[..m], v);
      var ps := PiecesAt(chains[m], v);
      Sorted(s.internal + Keep(g, n, ps, true), s.external + [Keep(g, n, ps, false)])
  }

  /** The point sampled on an internal sub-loop: its second vertex (line
      441; the single-vertex branch of lines 442-447 cannot be taken, since a
      sub-loop holds both of its end occurrences). */
  function Sample(g: Geometry, piece: seq<Vertex>): Vec
    requires |piece| >= 2
  {
    g.position(piece[1])
  }

  /** The external sub-loop classifies the point as inside, against the
      expected normal and with the point list point_in_polygon builds. */
  predicate Contains(g: Geometry, n: Vec, loop: seq<Vertex>, pt: Vec)
  {
    g.classify(PaddedPolygon(g, loop), pt, Some(n)) == Inside
  }

  /** The first external sub-loop of one split loop, from position m on,
      that contains the point (the inner loop of lines 451-459). */
  function FirstIn(g: Geometry, n: Vec, loops: seq<seq<Vertex>>, pt: Vec, m: nat): (r: Option<nat>)
    requires m <= |loops|
    ensures r.Some? ==> m <= r.value < |loops| && Contains(g, n, loops[r.value], pt)
    ensures forall q :: m <= q < (if r.Some? then r.value else |loops|) ==> !Contains(g, n, loops[q], pt)
    decreases |loops| - m
  {
    if m == |loops| then None
    else if Contains(g, n, loops[m], pt) then Some(m)
    else FirstIn(g, n, loops, pt, m + 1)
  }

  /** The first split loop, from ic on, with an external sub-loop that
      contains the point, and that sub-loop (lines 449-460). */
  function FirstContaining(g: Geometry, n: Vec, ext: seq<seq<seq<Vertex>>>, pt: Vec, ic: nat): (r: Option<(nat, nat)>)
    requires ic <= |ext|
    ensures r.Some? ==>
      ic <= r.value.0 < |ext| && r.value.1 < |ext[r.value.0]| && Contains(g, n, ext[r.value.0][r.value.1], pt)
    ensures r.None? ==> forall c, q :: ic <= c < |ext| && 0 <= q < |ext[c]| ==> !Contains(g, n, ext[c][q], pt)
    decreases |ext| - ic
  {
    if ic == |ext| then None
    else
      match FirstIn(g, n, ext[ic], pt, 0)
      case Some(m) => Some((ic, m))
      case None => FirstContaining(g, n, ext, pt, ic + 1)
  }

  /** Folds an internal sub-loop into external sub-loop m of split loop ic:
      its vertices are appended to that loop. */
  function Place(ext: seq<seq<seq<Vertex>>>, ic: nat, m: nat, piece: seq<Vertex>): seq<seq<seq<Vertex>>>
    requires ic < |ext| && m < |ext[ic]|
  {
    ext[ic := ext[ic][m := ext[ic][m] + piece]]
  }

  /** Line 455 as written: the containing external sub-loop is moved to the
      end of its own list (leaving an empty list in its place) and the
      internal sub-loop is not used. */
  function PlaceAsWritten(ext: seq<seq<seq<Vertex>>>, ic: nat, m: nat, piece: seq<Vertex>): seq<seq<seq<Vertex>>>
    requires ic < |ext| && m < |ext[ic]|
  {
    ext[ic := ext[ic][m := []] + [ext[ic][m]]]
  }

  ghost predicate Loops(ps: seq<seq<Vertex>>)
  {
    forall j :: 0 <= j < |ps| ==> |ps[j]| >= 2
  }

  /** Lines 438-462: every internal sub-loop, in order, folded into the first
      external sub-loop containing its sample point; None when one is not
      located. */
  function Locate(g: Geometry, n: Vec, ext: seq<seq<seq<Vertex>>>, internal: seq<seq<Vertex>>): (r: Option<seq<seq<seq<Vertex>>>>)
    requires Loops(internal)
    ensures r.Some? ==> |r.value| == |ext| && forall c :: 0 <= c < |ext| ==> |r.value[c]| == |ext[c]|
    decreases |internal|
  {
    if internal == [] then Some(ext)
    else
      match FirstContaining(g, n, ext, Sample(g, internal[0]), 0)
      case None => None
      case Some((ic, m)) => Locate(g, n, Place(ext, ic, m, internal[0]), internal[1..])
  }

  /** Lines 463-470, corrected: a split loop in which v repeats is replaced
      by its external sub-loops, one after the other; the others are kept. */
  function Rewrite(chains: seq<seq<Vertex>>, ext: seq<seq<seq<Vertex>>>, v: Vertex): (r: seq<seq<Vertex>>)
    requires |ext| == |chains|
    ensures |r| == |chains|
  {
    seq(|chains|, ic requires 0 <= ic < |chains| =>
      if |Occurrences(chains[ic], v)| >= 2 then Concat(ext[ic]) else chains[ic])
  }

  /** Lines 463-470 as written: every split loop is cleared and refilled
      from its external sub-loops, so a loop in which v does not repeat (and
      so has none) is emptied. */
  function RewriteAsWritten(chains: seq<seq<Vertex>>, ext: seq<seq<seq<Vertex>>>): (r: seq<seq<Vertex>>)
    requires |ext| == |chains|
    ensures |r| == |chains|
  {
    seq(|chains|, ic requires 0 <= ic < |chains| => Concat(ext[ic]))
  }

  /** One pass of lines 410-471, for the test vertex v. */
  function ResolveVertex(g: Geometry, n: Vec, chains: seq<seq<Vertex>>, v: Vertex): Result<seq<seq<Vertex>>>
  {
    var s := Sort(g, n, chains, v);
    SortLoops(g, n, chains, v);
    if s.internal == [] then Ok(chains)
    else
      match Locate(g, n, s.external, s.internal)
      case None => Fail(UnlocatedInternalLoop)
      case Some(ext) => Ok(Rewrite(chains, ext, v))
  }

  /** resolve_ambiguities, corrected: the pass for the path's first vertex,
      then the pass for its last vertex on the loops the first pass left. */
  function Resolve(g: Geometry, n: Vec, chains: seq<seq<Vertex>>, a: Vertex, b: Vertex): Result<seq<seq<Vertex>>>
  {
    match ResolveVertex(g, n, chains, a)
    case Fail(e) => Fail(e)
    case Ok(c) => ResolveVertex(g, n, c, b)
  }

  // ---------------------------------------------------------------------------
  // Methods: the loops of the source

  /** The position scan of lines 398-405 for one split loop. */
  method FindOccurrences(c: seq<Vertex>, v: Vertex) returns (P: seq<nat>)
    ensures P == Occurrences(c, v)
  {
    P := [];
    for i := 0 to |c|
      invariant P == Occurrences(c[..i], v)
    {
      assert c[..i + 1][..i] == c[..i];
      if c[i] == v {
        P := P + [i];
      }
    }
    assert c[..|c|] == c;
  }

  /** The walk of lines 421-428: from position s, one step at a time and
      wrapping at the end, up to position e. */
  method CutPiece(c: seq<Vertex>, s: nat, e: nat) returns (r: seq<Vertex>)
    requires s < |c| && e < |c| && s != e
    ensures r == Piece(c, s, e)
  {
    r := [c[s]];
    var i := s;
    while i != e
      invariant i < |c|
      invariant s < e ==> s <= i <= e && r == c[s..i + 1]
      invariant e < s && s <= i ==> r == c[s..i + 1]
      invariant e < s && i < s ==> i <= e && r == c[s..] + c[..i + 1]
      decreases if s <= i then |c| - i + e + 1 else e - i
    {
      i := i + 1;
      if i >= |c| {
        i := 0;
      }
      r := r + [c[i]];
    }
  }

  /** Lines 413-435: cuts every split loop in which v repeats and sorts the
      sub-loops by the orientation of their polygons. */
  method SortSubLoops(g: Geometry, n: Vec, chains: seq<seq<Vertex>>, v: Vertex)
    returns (internal: seq<seq<Vertex>>, external: seq<seq<seq<Vertex>>>)
    ensures Sorted(internal, external) == Sort(g, n, chains, v)
  {
    internal := [];
    external := [];
    for ic := 0 to |chains|
      invariant Sorted(internal, external) == Sort(g, n, chains[..ic], v)
    {
      var inner, outer := SortLoop(g, n, chains[ic], v);
      SortStep(g, n, chains, v, ic, inner, outer);
      internal := internal + inner;
      external := external + [outer];
    }
    assert chains[..|chains|] == chains;
  }

  lemma SortStep(g: Geometry, n: Vec, chains: seq<seq<Vertex>>, v: Vertex, ic: nat, inner: seq<seq<Vertex>>, outer: seq<seq<Vertex>>)
    requires ic < |chains|
    requires inner == Keep(g, n, PiecesAt(chains[ic], v), true)
    requires outer == Keep(g, n, PiecesAt(chains[ic], v), false)
    ensures var s := Sort(g, n, chains[..ic], v);
      Sort(g, n, chains[..ic + 1], v) == Sorted(s.internal + inner, s.external + [outer])
  {
    assert chains[..ic + 1][..ic] == chains[..ic];
  }

  /** Lines 415-434 for one split loop: its sub-loops at v, internal ones
      and external ones. */
  method SortLoop(g: Geometry, n: Vec, c: seq<Vertex>, v: Vertex)
    returns (inner: seq<seq<Vertex>>, outer: seq<seq<Vertex>>)
    ensures inner == Keep(g, n, PiecesAt(c, v), true)
    ensures outer == Keep(g, n, PiecesAt(c, v), false)
  {
    var P := FindOccurrences(c, v);
    inner, outer := [], [];
    if |P| < 2 {
      return;
    }
    ghost var ps := Pieces(c, P);
    var start := P[|P| - 1];
    for j := 0 to |P|
      invariant j < |P| ==> start == Before(P, j)
      invariant inner == Keep(g, n, ps[..j], true)
      invariant outer == Keep(g, n, ps[..j], false)
    {
      var piece := CutPiece(c, start, P[j]);
      assert piece == ps[j];
      KeepStep(g, n, ps, j, true);
      KeepStep(g, n, ps, j, false);
      if Dot(n, g.polygonNormal(Points(g, piece))) < 0.0 {
        inner := inner + [piece];
      } else {
        outer := outer + [piece];
      }
      start := P[j];
    }
    assert ps[..|P|] == ps;
  }

  lemma KeepStep(g: Geometry, n: Vec, ps: seq<seq<Vertex>>, j: nat, internal: bool)
    requires j < |ps|
    ensures Keep(g, n, ps[..j + 1], internal)
      == Keep(g, n, ps[..j], internal) + (if Internal(g, n, ps[j]) == internal then [ps[j]] else [])
  {
    assert ps[..j + 1][..j] == ps[..j];
  }

  /** The search of lines 449-460 for one sample point. */
  method FindContaining(g: Geometry, n: Vec, ext: seq<seq<seq<Vertex>>>, pt: Vec) returns (r: Option<(nat, nat)>)
    ensures r == FirstContaining(g, n, ext, pt, 0)
  {
    var located := false;
    r := None;
    var ic := 0;
    while ic < |ext| && !located
      invariant ic <= |ext|
      invariant located ==> r == FirstContaining(g, n, ext, pt, 0)
      invariant !located ==> r.None? && FirstContaining(g, n, ext, pt, ic) == FirstContaining(g, n, ext, pt, 0)
      decreases |ext| - ic, if located then 0 else 1
    {
      for m := 0 to |ext[ic]|
        invariant FirstIn(g, n, ext[ic], pt, m) == FirstIn(g, n, ext[ic], pt, 0)
      {
        if g.classify(PaddedPolygon(g, ext[ic][m]), pt, Some(n)) == Inside {
          r := Some((ic, m));
          located := true;
          break;
        }
      }
      if !located {
        ic := ic + 1;
      }
    }
  }

  /** Lines 438-462: folds the internal sub-loops into external ones. */
  method LocateAll(g: Geometry, n: Vec, ext: seq<seq<seq<Vertex>>>, internal: seq<seq<Vertex>>)
    returns (r: Option<seq<seq<seq<Vertex>>>>)
    requires Loops(internal)
    ensures r == Locate(g, n, ext, internal)
  {
    var cur := ext;
    for k := 0 to |internal|
      invariant Locate(g, n, cur, internal[k..]) == Locate(g, n, ext, internal)
    {
      assert internal[k..][0] == internal[k] && internal[k..][1..] == internal[k + 1..];
      var at := FindContaining(g, n, cur, g.position(internal[k][1]));
      if at.None? {
        return None;
      }
      var (ic, m) := at.value;
      cur := cur[ic := cur[ic][m := cur[ic][m] + internal[k]]];
    }
    assert internal[|internal|..] == [];
    r := Some(cur);
  }

  /** resolve_ambiguities: the pass for each end of the path in turn. */
  method ResolveAmbiguities(g: Geometry, n: Vec, chains: seq<seq<Vertex>>, a: Vertex, b: Vertex)
    returns (r: Result<seq<seq<Vertex>>>)
    ensures r == Resolve(g, n, chains, a, b)
  {
    var cur := chains;
    var tests := [a, b];
    for t := 0 to 2
      invariant t == 0 ==> cur == chains
      invariant t == 1 ==> ResolveVertex(g, n, chains, a) == Ok(cur)
      invariant t == 2 ==> Resolve(g, n, chains, a, b) == Ok(cur)
    {
      var pass := ResolvePass(g, n, cur, tests[t]);
      if pass.Fail? {
        return pass;
      }
      cur := pass.value;
    }
    r := Ok(cur);
  }

  /** One pass of lines 410-471 for the test vertex v. */
  method ResolvePass(g: Geometry, n: Vec, chains: seq<seq<Vertex>>, v: Vertex)
    returns (r: Result<seq<seq<Vertex>>>)
    ensures r == ResolveVertex(g, n, chains, v)
  {
    var internal, external := SortSubLoops(g, n, chains, v);
    SortLoops(g, n, chains, v);
    if internal == [] {
      return Ok(chains);
    }
    var located := LocateAll(g, n, external, internal);
    if located.None? {
      return Fail(UnlocatedInternalLoop);
    }
    var next := RewriteLoops(chains, located.value, v);
    r := Ok(next);
  }

  /** Lines 463-470, corrected: rebuilds each split loop in which v repeats
      from its external sub-loops. */
  method RewriteLoops(chains: seq<seq<Vertex>>, ext: seq<seq<seq<Vertex>>>, v: Vertex)
    returns (r: seq<seq<Vertex>>)
    requires |ext| == |chains|
    ensures r == Rewrite(chains, ext, v)
  {
    r := [];
    for ic := 0 to |chains|
      invariant |r| == ic
      invariant forall k :: 0 <= k < ic ==> r[k] == Rewrite(chains, ext, v)[k]
    {
      var P := FindOccurrences(chains[ic], v);
      if |P| >= 2 {
        r := r + [Concat(ext[ic])];
      } else {
        r := r + [chains[ic]];
      }
    }
  }

  // ---------------------------------------------------------------------------
  // Lemmas

  lemma KeepLoops(g: Geometry, n: Vec, ps: seq<seq<Vertex>>, internal: bool)
    requires Loops(ps)
    ensures Loops(Keep(g, n, ps, internal))
  {
    if ps != [] {
      KeepLoops(g, n, ps[..|ps| - 1], internal);
    }
  }

  /** Every sub-loop holds its two end occurrences. */
  lemma SortLoops(g: Geometry, n: Vec, chains: seq<seq<Vertex>>, v: Vertex)
    ensures Loops(Sort(g, n, chains, v).internal)
  {
    if chains != [] {
      var m := |chains| - 1;
      SortLoops(g, n, chains[..m], v);
      var ps := PiecesAt(chains[m], v);
      PiecesLoops(chains[m], v);
      KeepLoops(g, n, ps, true);
    }
  }

  /** A loop in which v occurs k >= 2 times is cut into k sub-loops; each
      starts and ends at v, holds no other occurrence of v, and runs between
      consecutive occurrences. */
  lemma PiecesShape(c: seq<Vertex>, v: Vertex, j: nat)
    requires |Occurrences(c, v)| >= 2 && j < |Occurrences(c, v)|
    ensures |PiecesAt(c, v)| == |Occurrences(c, v)| && SubLoop(PiecesAt(c, v)[j], v)
  {
    PiecesAtIndex(c, v, j);
    OccurrencesPositions(c, v);
    PieceShape(c, v, Occurrences(c, v), j);
  }

  /** A sub-loop at v: at least two vertices, v at both ends and nowhere in
      between. */
  predicate SubLoop(p: seq<Vertex>, v: Vertex)
  {
    |p| >= 2 && p[0] == v && p[|p| - 1] == v && forall i :: 0 < i < |p| - 1 ==> p[i] != v
  }

  lemma PiecesAtIndex(c: seq<Vertex>, v: Vertex, j: nat)
    requires |Occurrences(c, v)| >= 2 && j < |Occurrences(c, v)|
    ensures var P := Occurrences(c, v);
      && Before(P, j) < |c| && P[j] < |c| && Before(P, j) != P[j]
      && |PiecesAt(c, v)| == |P| && PiecesAt(c, v)[j] == Piece(c, Before(P, j), P[j])
  {
    assert Cuts(c, Occurrences(c, v));
  }

  /** Every sub-loop holds at least its two end occurrences. */
  lemma PiecesLoops(c: seq<Vertex>, v: Vertex)
    ensures Loops(PiecesAt(c, v))
  {
    var ps := PiecesAt(c, v);
    forall j | 0 <= j < |ps|
      ensures |ps[j]| >= 2
    {
      PiecesShape(c, v, j);
    }
  }

  /** P lists, in increasing order, exactly the positions of v in c. */
  ghost predicate Positions(c: seq<Vertex>, v: Vertex, P: seq<nat>)
  {
    && (forall j :: 0 <= j < |P| ==> P[j] < |c| && c[P[j]] == v)
    && (forall i, j :: 0 <= i < j < |P| ==> P[i] < P[j])
    && (forall p {:trigger p in P} :: 0 <= p < |c| && c[p] == v ==> p in P)
  }

  lemma OccurrencesPositions(c: seq<Vertex>, v: Vertex)
    ensures Positions(c, v, Occurrences(c, v))
  {
    forall p | 0 <= p < |c| && c[p] == v
      ensures p in Occurrences(c, v)
    {
      OccurrencesComplete(c, v, p);
    }
  }

  lemma PieceShape(c: seq<Vertex>, v: Vertex, P: seq<nat>, j: nat)
    requires Positions(c, v, P) && |P| >= 2 && j < |P|
    ensures SubLoop(Piece(c, Before(P, j), P[j]), v)
  {
    var s, e := Before(P, j), P[j];
    var p := Piece(c, s, e);
    assert p[0] == c[s];
    forall i | 0 < i < |p| - 1
      ensures p[i] != v
    {
      var x := if s + i < |c| then s + i else s + i - |c|;
      assert p[i] == c[x];
      NotBetween(P, j, x);
    }
  }

  /** No position of P lies strictly between the two positions sub-loop j
      runs between. */
  lemma NotBetween(P: seq<nat>, j: nat, x: nat)
    requires forall a, b :: 0 <= a < b < |P| ==> P[a] < P[b]
    requires |P| >= 2 && j < |P|
    requires j > 0 ==> P[j - 1] < x < P[j]
    requires j == 0 ==> x < P[0] || P[|P| - 1] < x
    ensures x !in P
  {
    forall k | 0 <= k < |P|
      ensures P[k] != x
    {
      if j > 0 {
        if k < j - 1 {
          assert P[k] < P[j - 1];
        } else if j < k {
          assert P[j] < P[k];
        }
      } else {
        if 0 < k {
          assert P[0] < P[k];
        }
        if k < |P| - 1 {
          assert P[k] < P[|P| - 1];
        }
      }
    }
  }

  /** Every sub-loop without its closing vertex. */
  function Heads(ps: seq<seq<Vertex>>): (hs: seq<seq<Vertex>>)
    ensures |hs| == |ps|
    ensures forall j :: 0 <= j < |ps| ==> hs[j] == Open(ps[j])
  {
    seq(|ps|, j requires 0 <= j < |ps| => Open(ps[j]))
  }

  /** The sub-loops between increasing positions (the occurrences of v,
      say), each without its closing vertex, spell the loop read from the
      last position on: they cut it with nothing lost. */
  lemma PiecesCover(c: seq<Vertex>, P: seq<nat>)
    requires Cuts(c, P)
    ensures Concat(Heads(Pieces(c, P))) == Rotate(c, P[|P| - 1])
  {
    var ps := Pieces(c, P);
    var heads := Heads(ps);
    var k := |P| - 1;
    assert heads[0] == c[P[k]..] + c[..P[0]] by {
      assert P[0] < P[k];
      assert ps[0] == Piece(c, P[k], P[0]);
      OpenPiece(c, P[k], P[0]);
    }
    forall j | 0 < j < |P|
      ensures heads[j] == c[P[j - 1]..P[j]]
    {
      assert P[j - 1] < P[j];
      assert ps[j] == Piece(c, P[j - 1], P[j]);
      OpenPiece(c, P[j - 1], P[j]);
    }
    HeadsSpell(c, P, heads, k + 1);
    assert heads[..k + 1] == heads;
  }

  lemma OpenPiece(c: seq<Vertex>, s: nat, e: nat)
    requires s < |c| && e < |c| && s != e
    ensures Open(Piece(c, s, e)) == if s < e then c[s..e] else c[s..] + c[..e]
  {
    var p := Piece(c, s, e);
    if s > e {
      assert p == (c[s..] + c[..e]) + [c[e]];
    } else {
      assert p == c[s..e] + [c[e]];
    }
  }

  /** A sub-loop without its closing vertex. */
  function Open(p: seq<Vertex>): seq<Vertex>
  {
    if p == [] then [] else p[..|p| - 1]
  }

  /** The heads of the sub-loops 1 .. m-1 spell the loop from the first to
      the (m-1)-th occurrence. */
  lemma {:induction false} HeadsSpell(c: seq<Vertex>, P: seq<nat>, heads: seq<seq<Vertex>>, m: nat)
    requires Cuts(c, P) && |heads| == |P| && 1 <= m <= |P|
    requires heads[0] == c[P[|P| - 1]..] + c[..P[0]]
    requires forall j :: 0 < j < |P| ==> heads[j] == c[P[j - 1]..P[j]]
    ensures Concat(heads[..m]) == c[P[|P| - 1]..] + c[..P[m - 1]]
    decreases m
  {
    if m == 1 {
      ConcatSingle(heads[0]);
      assert heads[..1] == [heads[0]];
    } else {
      HeadsSpell(c, P, heads, m - 1);
      ConcatPrefix(heads, m);
      assert P[m - 2] < P[m - 1];
      SliceJoin(c, P[m - 2], P[m - 1]);
    }
  }

  lemma ConcatPrefix<T>(ss: seq<seq<T>>, m: nat)
    requires 0 < m <= |ss|
    ensures Concat(ss[..m]) == Concat(ss[..m - 1]) + ss[m - 1]
  {
    assert ss[..m][..m - 1] == ss[..m - 1];
  }

  lemma SliceJoin<T>(c: seq<T>, a: nat, b: nat)
    requires a <= b <= |c|
    ensures c[..b] == c[..a] + c[a..b]
  {
  }

  /** All the vertices of a list of sub-loop lists: the two-level
      flattening, Concat of each list of sub-loops in turn. */
  function Flat(ext: seq<seq<seq<Vertex>>>): seq<Vertex>
  {
    if ext == [] then [] else Flat(ext[..|ext| - 1]) + Concat(ext[|ext| - 1])
  }

  /** Folding loses no vertex: the external sub-loops afterwards hold their
      own vertices and those of every internal sub-loop, and each split loop
      keeps its number of external sub-loops. */
  lemma {:induction false} LocateKeepsVertices(g: Geometry, n: Vec, ext: seq<seq<seq<Vertex>>>, internal: seq<seq<Vertex>>)
    requires Loops(internal) && Locate(g, n, ext, internal).Some?
    ensures multiset(Flat(Locate(g, n, ext, internal).value)) == multiset(Flat(ext)) + multiset(Concat(internal))
    decreases |internal|
  {
    if internal != [] {
      var (ic, m) := FirstContaining(g, n, ext, Sample(g, internal[0]), 0).value;
      var ext' := Place(ext, ic, m, internal[0]);
      var rest := internal[1..];
      assert Locate(g, n, ext, internal) == Locate(g, n, ext', rest);
      assert multiset(Flat(Locate(g, n, ext', rest).value)) == multiset(Flat(ext')) + multiset(Concat(rest)) by {
        LocateKeepsVertices(g, n, ext', rest);
      }
      assert multiset(Flat(ext')) == multiset(Flat(ext)) + multiset(internal[0]) by {
        PlaceKeepsVertices(ext, ic, m, internal[0]);
      }
      assert multiset(Concat(internal)) == multiset(internal[0]) + multiset(Concat(rest)) by {
        assert internal == [internal[0]] + rest;
        ConcatCons(internal[0], rest);
      }
    }
  }

  /** Folding one internal sub-loop adds exactly its vertices. */
  lemma PlaceKeepsVertices(ext: seq<seq<seq<Vertex>>>, ic: nat, m: nat, piece: seq<Vertex>)
    requires ic < |ext| && m < |ext[ic]|
    ensures multiset(Flat(Place(ext, ic, m, piece))) == multiset(Flat(ext)) + multiset(piece)
  {
    var row := ext[ic];
    var row' := row[m := row[m] + piece];
    assert Place(ext, ic, m, piece) == ext[ic := row'];
    ConcatUpdate(row, m, row[m] + piece);
    assert multiset(row[m] + piece) == multiset(row[m]) + multiset(piece);
    Cancel(multiset(Concat(row')), multiset(Concat(row)) + multiset(piece), multiset(row[m]));
    FlatUpdate(ext, ic, row');
    Grow(multiset(Flat(ext[ic := row'])), multiset(Flat(ext)), multiset(Concat(row)), multiset(Concat(row')), multiset(piece));
  }

  lemma Grow(a': multiset<Vertex>, a: multiset<Vertex>, x: multiset<Vertex>, x': multiset<Vertex>, p: multiset<Vertex>)
    requires a' + x == a + x' && x' == x + p
    ensures a' == a + p
  {
    forall v ensures a'[v] == (a + p)[v] {
      assert (a' + x)[v] == (a + x')[v];
    }
  }

  /** Replacing one element changes the concatenation's vertices by the
      difference of the two. */
  lemma {:induction false} ConcatUpdate(row: seq<seq<Vertex>>, m: nat, x: seq<Vertex>)
    requires m < |row|
    ensures multiset(Concat(row[m := x])) + multiset(row[m]) == multiset(Concat(row)) + multiset(x)
    decreases |row|
  {
    var k := |row| - 1;
    var row' := row[m := x];
    assert Concat(row') == Concat(row'[..k]) + row'[k];
    assert Concat(row) == Concat(row[..k]) + row[k];
    if m < k {
      assert row'[..k] == row[..k][m := x];
      ConcatUpdate(row[..k], m, x);
      assert row[..k][m] == row[m] && row'[k] == row[k];
      assert multiset(Concat(row')) == multiset(Concat(row'[..k])) + multiset(row[k]);
      assert multiset(Concat(row)) == multiset(Concat(row[..k])) + multiset(row[k]);
      Shuffle(multiset(Concat(row'[..k])), multiset(row[m]), multiset(Concat(row[..k])), multiset(x), multiset(row[k]));
    } else {
      assert row'[..k] == row[..k];
    }
  }

  lemma Cancel(a: multiset<Vertex>, b: multiset<Vertex>, x: multiset<Vertex>)
    requires a + x == b + x
    ensures a == b
  {
    forall v ensures a[v] == b[v] {
      assert (a + x)[v] == (b + x)[v];
    }
  }

  lemma Shuffle(a': multiset<Vertex>, x: multiset<Vertex>, a: multiset<Vertex>, y: multiset<Vertex>, r: multiset<Vertex>)
    requires a' + x == a + y
    ensures (a' + r) + x == (a + r) + y
  {
    forall v ensures ((a' + r) + x)[v] == ((a + r) + y)[v] {
      assert (a' + x)[v] == (a + y)[v];
    }
  }

  lemma {:induction false} FlatUpdate(ext: seq<seq<seq<Vertex>>>, ic: nat, row: seq<seq<Vertex>>)
    requires ic < |ext|
    ensures multiset(Flat(ext[ic := row])) + multiset(Concat(ext[ic])) == multiset(Flat(ext)) + multiset(Concat(row))
    decreases |ext|
  {
    var k := |ext| - 1;
    var ext' := ext[ic := row];
    assert Flat(ext') == Flat(ext'[..k]) + Concat(ext'[k]);
    assert Flat(ext) == Flat(ext[..k]) + Concat(ext[k]);
    if ic < k {
      assert ext'[..k] == ext[..k][ic := row];
      FlatUpdate(ext[..k], ic, row);
      assert ext[..k][ic] == ext[ic] && ext'[k] == ext[k];
      assert multiset(Flat(ext')) == multiset(Flat(ext'[..k])) + multiset(Concat(ext[k]));
      assert multiset(Flat(ext)) == multiset(Flat(ext[..k])) + multiset(Concat(ext[k]));
      Shuffle(multiset(Flat(ext'[..k])), multiset(Concat(ext[ic])), multiset(Flat(ext[..k])), multiset(Concat(row)), multiset(Concat(ext[k])));
    } else {
      assert ext'[..k] == ext[..k];
    }
  }

  /** Line 455 as written loses the internal sub-loop: with one internal
      sub-loop a-x-a located in the external sub-loop a-y-a, no vertex x is
      left among the external sub-loops. */
  lemma PlaceAsWrittenDropsInternal()
    ensures var ext := [[[1, 3, 1]]];
      var piece := [1, 2, 1];
      && 2 !in Flat(PlaceAsWritten(ext, 0, 0, piece))
      && 2 in Flat(Place(ext, 0, 0, piece))
  {
    var outer: seq<Vertex> := [1, 3, 1];
    var piece: seq<Vertex> := [1, 2, 1];
    var empty: seq<Vertex> := [];
    var ext := [[outer]];
    assert ext[0] == [outer];
    assert ext[0][0 := empty] == [empty];
    var row := ext[0][0 := empty] + [ext[0][0]];
    assert row == [empty, outer];
    var w := PlaceAsWritten(ext, 0, 0, piece);
    assert w == ext[0 := row] == [row];
    assert Concat(row) == outer by {
      assert row[..1] == [empty];
      assert [empty][..0] == [];
      assert Concat(row) == Concat(row[..1]) + outer;
      assert Concat([empty]) == Concat([empty][..0]) + empty;
    }
    assert w[..0] == [];
    assert Flat(w) == outer;
    var c := Place(ext, 0, 0, piece);
    assert ext[0][0 := outer + piece] == [outer + piece];
    assert c == ext[0 := [outer + piece]] == [[outer + piece]];
    assert Concat([outer + piece]) == outer + piece by {
      assert [outer + piece][..0] == [];
    }
    assert c[..0] == [];
    assert Flat(c) == outer + piece;
    assert Flat(c)[4] == 2;
  }

  /** Lines 463-470 as written empty a split loop in which the test vertex
      does not repeat: with split loops 1-2-1-3 and 4-5 and the test vertex
      1, the second loop is cleared. The corrected rewrite keeps it. */
  lemma RewriteAsWrittenClears()
    ensures var chains := [[1, 2, 1, 3], [4, 5]];
      var ext := [[[1, 3, 1]], []];
      && RewriteAsWritten(chains, ext)[1] == []
      && Rewrite(chains, ext, 1)[1] == [4, 5]
  {
    var chains := [[1, 2, 1, 3], [4, 5]];
    var ext := [[[1, 3, 1]], []];
    assert Concat(ext[1]) == [];
    assert |Occurrences(chains[1], 1)| < 2 by {
      assert Occurrences([4], 1) == Occurrences([], 1);
      assert Occurrences([4, 5], 1) == Occurrences([4], 1);
    }
  }

  /** A split loop that keeps no sub-loops of its own (when v does not
      repeat in it) is left as it was by the corrected pass. */
  lemma ResolveVertexKeepsUnrepeated(g: Geometry, n: Vec, chains: seq<seq<Vertex>>, v: Vertex, ic: nat)
    requires ic < |chains| && |Occurrences(chains[ic], v)| < 2
    requires ResolveVertex(g, n, chains, v).Ok?
    ensures |ResolveVertex(g, n, chains, v).value| == |chains|
    ensures ResolveVertex(g, n, chains, v).value[ic] == chains[ic]
  {
  }

  /** A pass loses no vertex and adds none: a vertex is on some split loop
      afterwards exactly when it was on one before. (A loop in which v
      repeats gains copies of v, since every sub-loop keeps both of its end
      occurrences.) */
  lemma {:induction false} ResolveVertexKeepsVertices(g: Geometry, n: Vec, chains: seq<seq<Vertex>>, v: Vertex)
    requires ResolveVertex(g, n, chains, v).Ok?
    ensures forall x :: x in Concat(chains) <==> x in Concat(ResolveVertex(g, n, chains, v).value)
  {
    var s := Sort(g, n, chains, v);
    SortLoops(g, n, chains, v);
    if s.internal != [] {
      var ext := Locate(g, n, s.external, s.internal).value;
      assert ResolveVertex(g, n, chains, v).value == Rewrite(chains, ext, v);
      LocateKeepsVertices(g, n, s.external, s.internal);
      SortExternalAt(g, n, chains, v);
      forall ic | 0 <= ic < |chains| && |Occurrences(chains[ic], v)| < 2
        ensures Concat(ext[ic]) == []
      {
        assert |ext[ic]| == |Keep(g, n, PiecesAt(chains[ic], v), false)| == 0;
      }
      forall x
        ensures x in Concat(chains) <==> x in Concat(Rewrite(chains, ext, v))
      {
        SortVertices(g, n, chains, v, x);
        assert x in multiset(Flat(ext)) <==> x in multiset(Flat(s.external)) + multiset(Concat(s.internal));
        RewriteVertices(chains, ext, v, x);
      }
    }
  }

  /** The rewrite keeps the vertex set when the external lists hold exactly
      the vertices of the loops in which v repeats, and nothing for the
      others. */
  lemma RewriteVertices(chains: seq<seq<Vertex>>, ext: seq<seq<seq<Vertex>>>, v: Vertex, x: Vertex)
    requires |ext| == |chains|
    requires forall ic :: 0 <= ic < |chains| && |Occurrences(chains[ic], v)| < 2 ==> Concat(ext[ic]) == []
    requires x in Flat(ext) <==> OnRepeated(chains, v, x)
    ensures x in Concat(chains) <==> x in Concat(Rewrite(chains, ext, v))
  {
    var out := Rewrite(chains, ext, v);
    InConcat(chains, x);
    InConcat(out, x);
    InFlat(ext, x);
    if x in Concat(chains) {
      var ic :| 0 <= ic < |chains| && x in chains[ic];
      if |Occurrences(chains[ic], v)| >= 2 {
        assert OnRepeated(chains, v, x);
        var ic' :| 0 <= ic' < |ext| && x in Concat(ext[ic']);
        assert |Occurrences(chains[ic'], v)| >= 2;
        assert x in out[ic'];
      } else {
        assert x in out[ic];
      }
    }
    if x in Concat(out) {
      var ic :| 0 <= ic < |out| && x in out[ic];
      if |Occurrences(chains[ic], v)| >= 2 {
        assert x in Concat(ext[ic]);
        var ic' :| 0 <= ic' < |chains| && |Occurrences(chains[ic'], v)| >= 2 && x in chains[ic'];
      }
    }
  }

  /** Both passes together lose no vertex and add none. */
  lemma ResolveKeepsVertices(g: Geometry, n: Vec, chains: seq<seq<Vertex>>, a: Vertex, b: Vertex)
    requires Resolve(g, n, chains, a, b).Ok?
    ensures forall x :: x in Concat(chains) <==> x in Concat(Resolve(g, n, chains, a, b).value)
  {
    var first := ResolveVertex(g, n, chains, a);
    ResolveVertexKeepsVertices(g, n, chains, a);
    ResolveVertexKeepsVertices(g, n, first.value, b);
  }

  /** x is on a split loop in which v repeats. */
  ghost predicate OnRepeated(chains: seq<seq<Vertex>>, v: Vertex, x: Vertex)
  {
    exists ic :: 0 <= ic < |chains| && |Occurrences(chains[ic], v)| >= 2 && x in chains[ic]
  }

  /** The sub-loops of one pass, internal and external together, hold
      exactly the vertices of the split loops in which v repeats. */
  lemma {:induction false} SortVertices(g: Geometry, n: Vec, chains: seq<seq<Vertex>>, v: Vertex, x: Vertex)
    ensures var s := Sort(g, n, chains, v);
      x in Flat(s.external) || x in Concat(s.internal) <==> OnRepeated(chains, v, x)
    decreases |chains|
  {
    if chains != [] {
      var m := |chains| - 1;
      var s := Sort(g, n, chains[..m], v);
      var ps := PiecesAt(chains[m], v);
      var kt, kf := Keep(g, n, ps, true), Keep(g, n, ps, false);
      var ext := s.external + [kf];
      assert Sort(g, n, chains, v) == Sorted(s.internal + kt, ext);
      assert Flat(ext) == Flat(s.external) + Concat(kf) by {
        assert ext[..|ext| - 1] == s.external;
      }
      ConcatAppend(s.internal, kt);
      SortVertices(g, n, chains[..m], v, x);
      KeepVertices(g, n, ps, x);
      PiecesVertices(chains[m], v, x);
      OnRepeatedLast(chains, v, x);
    }
  }

  /** Being on a repeated split loop, split at the last loop. */
  lemma OnRepeatedLast(chains: seq<seq<Vertex>>, v: Vertex, x: Vertex)
    requires chains != []
    ensures var m := |chains| - 1;
      OnRepeated(chains, v, x) <==> OnRepeated(chains[..m], v, x) || (|Occurrences(chains[m], v)| >= 2 && x in chains[m])
  {
    var m := |chains| - 1;
    if OnRepeated(chains, v, x) {
      var ic :| 0 <= ic < |chains| && |Occurrences(chains[ic], v)| >= 2 && x in chains[ic];
      if ic < m {
        assert chains[..m][ic] == chains[ic];
      }
    }
    if OnRepeated(chains[..m], v, x) {
      var ic :| 0 <= ic < m && |Occurrences(chains[..m][ic], v)| >= 2 && x in chains[..m][ic];
      assert chains[..m][ic] == chains[ic];
    }
  }

  /** The external list of split loop ic holds that loop's external
      sub-loops. */
  lemma {:induction false} SortExternalAt(g: Geometry, n: Vec, chains: seq<seq<Vertex>>, v: Vertex)
    ensures forall ic :: 0 <= ic < |chains| ==>
      Sort(g, n, chains, v).external[ic] == Keep(g, n, PiecesAt(chains[ic], v), false)
    decreases |chains|
  {
    if chains != [] {
      var m := |chains| - 1;
      SortExternalAt(g, n, chains[..m], v);
      var s := Sort(g, n, chains[..m], v);
      assert Sort(g, n, chains, v).external == s.external + [Keep(g, n, PiecesAt(chains[m], v), false)];
      forall ic | 0 <= ic < m
        ensures Sort(g, n, chains, v).external[ic] == Keep(g, n, PiecesAt(chains[ic], v), false)
      {
        assert chains[..m][ic] == chains[ic];
      }
    }
  }

  /** Sorting sub-loops by kind keeps every vertex of them. */
  lemma {:induction false} KeepVertices(g: Geometry, n: Vec, ps: seq<seq<Vertex>>, x: Vertex)
    ensures x in Concat(Keep(g, n, ps, true)) || x in Concat(Keep(g, n, ps, false)) <==> x in Concat(ps)
    decreases |ps|
  {
    if ps != [] {
      var m := |ps| - 1;
      KeepVertices(g, n, ps[..m], x);
      var one := [ps[m]];
      var none: seq<seq<Vertex>> := [];
      ConcatSingle(ps[m]);
      ConcatAppend(Keep(g, n, ps[..m], true), if Internal(g, n, ps[m]) then one else none);
      ConcatAppend(Keep(g, n, ps[..m], false), if Internal(g, n, ps[m]) then none else one);
    }
  }

  /** The sub-loops at v hold exactly the loop's vertices when v repeats
      in it, and none otherwise. */
  lemma PiecesVertices(c: seq<Vertex>, v: Vertex, x: Vertex)
    ensures x in Concat(PiecesAt(c, v)) <==> |Occurrences(c, v)| >= 2 && x in c
  {
    var P := Occurrences(c, v);
    if |P| >= 2 {
      assert Cuts(c, P);
      var ps := Pieces(c, P);
      assert PiecesAt(c, v) == ps;
      if x in c {
        PiecesHold(c, P, x);
      }
      if x in Concat(ps) {
        InConcat(ps, x);
        var j :| 0 <= j < |ps| && x in ps[j];
        PieceWithin(c, Before(P, j), P[j], x);
      }
    }
  }

  /** Every vertex of the loop is on one of its sub-loops. */
  lemma PiecesHold(c: seq<Vertex>, P: seq<nat>, x: Vertex)
    requires Cuts(c, P) && x in c
    ensures x in Concat(Pieces(c, P))
  {
    var ps := Pieces(c, P);
    var hs := Heads(ps);
    var k := P[|P| - 1];
    assert x in Concat(hs) by {
      PiecesCover(c, P);
      RotateHolds(c, k, x);
    }
    InConcat(hs, x);
    var j :| 0 <= j < |hs| && x in hs[j];
    OpenWithin(ps[j], x);
    InConcat(ps, x);
  }

  lemma RotateHolds(c: seq<Vertex>, k: nat, x: Vertex)
    requires k <= |c| && x in c
    ensures x in Rotate(c, k)
  {
    assert c == c[..k] + c[k..];
  }

  lemma OpenWithin(p: seq<Vertex>, x: Vertex)
    requires x in Open(p)
    ensures x in p
  {
    assert p == Open(p) + [p[|p| - 1]];
  }

  /** A sub-loop holds only vertices of its loop. */
  lemma PieceWithin(c: seq<Vertex>, s: nat, e: nat, x: Vertex)
    requires s < |c| && e < |c| && s != e && x in Piece(c, s, e)
    ensures x in c
  {
    var p := Piece(c, s, e);
    var q :| 0 <= q < |p| && p[q] == x;
    if s < e {
      assert c[s + q] == x;
    } else if q < |c| - s {
      assert c[s + q] == x;
    } else {
      assert c[q - (|c| - s)] == x;
    }
  }

  /** A vertex is on a list of runs exactly when it is on one of them. */
  lemma {:induction false} InConcat(ss: seq<seq<Vertex>>, x: Vertex)
    ensures x in Concat(ss) <==> exists j :: 0 <= j < |ss| && x in ss[j]
    decreases |ss|
  {
    if ss != [] {
      var m := |ss| - 1;
      InConcat(ss[..m], x);
      assert forall j :: 0 <= j < m ==> ss[..m][j] == ss[j];
    }
  }

  /** A vertex is on a list of sub-loop lists exactly when it is on one
      of the lists. */
  lemma {:induction false} InFlat(ext: seq<seq<seq<Vertex>>>, x: Vertex)
    ensures x in Flat(ext) <==> exists ic :: 0 <= ic < |ext| && x in Concat(ext[ic])
    decreases |ext|
  {
    if ext != [] {
      var m := |ext| - 1;
      InFlat(ext[..m], x);
      assert Flat(ext) == Flat(ext[..m]) + Concat(ext[m]);
      if x in Flat(ext[..m]) {
        var ic :| 0 <= ic < m && x in Concat(ext[..m][ic]);
        assert ext[..m][ic] == ext[ic];
      }
      if exists ic :: 0 <= ic < |ext| && x in Concat(ext[ic]) {
        var ic :| 0 <= ic < |ext| && x in Concat(ext[ic]);
        if ic < m {
          assert ext[..m][ic] == ext[ic];
        }
      }
    }
  }

  /** The sub-loops of every split loop are split between the internal list
      and that loop's external list: together they are all its sub-loops. */
  lemma {:induction false} SortPartition(g: Geometry, n: Vec, chains: seq<seq<Vertex>>, v: Vertex)
    ensures var s := Sort(g, n, chains, v);
      multiset(s.internal) + multiset(Concat(s.external)) == multiset(AllPieces(chains, v))
    decreases |chains|
  {
    if chains != [] {
      var m := |chains| - 1;
      SortPartition(g, n, chains[..m], v);
      var s := Sort(g, n, chains[..m], v);
      var ps := PiecesAt(chains[m], v);
      KeepPartition(g, n, ps);
      var kt, kf := Keep(g, n, ps, true), Keep(g, n, ps, false);
      var ext := s.external + [kf];
      assert ext[..|ext| - 1] == s.external;
      assert Concat(ext) == Concat(s.external) + kf;
      assert AllPieces(chains, v) == AllPieces(chains[..m], v) + ps;
      assert multiset(s.internal + kt) == multiset(s.internal) + multiset(kt);
      assert multiset(Concat(s.external) + kf) == multiset(Concat(s.external)) + multiset(kf);
      assert multiset(AllPieces(chains, v)) == multiset(AllPieces(chains[..m], v)) + multiset(ps);
    }
  }

  /** The sub-loops of all split loops, one loop after the other. */
  function AllPieces(chains: seq<seq<Vertex>>, v: Vertex): seq<seq<Vertex>>
  {
    if chains == [] then [] else AllPieces(chains[..|chains| - 1], v) + PiecesAt(chains[|chains| - 1], v)
  }

  lemma {:induction false} KeepPartition(g: Geometry, n: Vec, ps: seq<seq<Vertex>>)
    ensures multiset(Keep(g, n, ps, true)) + multiset(Keep(g, n, ps, false)) == multiset(ps)
    decreases |ps|
  {
    if ps != [] {
      var m := |ps| - 1;
      KeepPartition(g, n, ps[..m]);
      assert ps == ps[..m] + [ps[m]];
    }
  }

  /** Lines 396-406 as written compute the positions of both test vertices
      before the first pass rewrites the loops. Here the first pass (for
      vertex 1) folds the internal sub-loop 1-2-1 into 1-4-3-4-1 and so moves
      vertex 4: the positions recorded for it before the pass are 3 and 5,
      but after the pass it sits at 1 and 3. The corrected Resolve looks them
      up again. */
  lemma StalePositions()
    ensures var g := StaleGeometry();
      var n := Vec(0.0, 0.0, 1.0);
      var chains := [[1, 2, 1, 4, 3, 4], [4, 1]];
      && ResolveVertex(g, n, chains, 1) == Ok([[1, 4, 3, 4, 1, 1, 2, 1], [4, 1]])
      && Occurrences(chains[0], 4) == [3, 5]
      && Occurrences([1, 4, 3, 4, 1, 1, 2, 1], 4) == [1, 3]
  {
    var g := StaleGeometry();
    var n := Vec(0.0, 0.0, 1.0);
    var c0: seq<Vertex> := [1, 2, 1, 4, 3, 4];
    var c1: seq<Vertex> := [4, 1];
    var chains := [c0, c1];
    var inner: seq<Vertex> := [1, 2, 1];
    var outer: seq<Vertex> := [1, 4, 3, 4, 1];
    StaleOccurrences();
    StaleSort();
    var s := Sort(g, n, chains, 1);
    SortLoops(g, n, chains, 1);
    StaleLocate();
    var ext: seq<seq<seq<Vertex>>> := [[outer + inner], []];
    StaleRewrite(ext);
  }

  /** The first pass of the example sorts 1-2-1 as internal and 1-4-3-4-1
      as the one external sub-loop of the first split loop. */
  lemma StaleSort()
    ensures Sort(StaleGeometry(), Vec(0.0, 0.0, 1.0), [[1, 2, 1, 4, 3, 4], [4, 1]], 1)
      == Sorted([[1, 2, 1]], [[[1, 4, 3, 4, 1]], []])
  {
    var c0: seq<Vertex> := [1, 2, 1, 4, 3, 4];
    var c1: seq<Vertex> := [4, 1];
    var none: seq<seq<Vertex>> := [];
    StaleSortFirst();
    StaleOccurrences();
    assert PiecesAt(c1, 1) == none;
    assert [c0, c1][..1] == [c0];
  }

  lemma StaleSortFirst()
    ensures Sort(StaleGeometry(), Vec(0.0, 0.0, 1.0), [[1, 2, 1, 4, 3, 4]], 1)
      == Sorted([[1, 2, 1]], [[[1, 4, 3, 4, 1]]])
  {
    var c0: seq<Vertex> := [1, 2, 1, 4, 3, 4];
    StalePieces();
    StaleKeep();
    assert [c0][..0] == [];
  }

  lemma StalePieces()
    ensures PiecesAt([1, 2, 1, 4, 3, 4], 1) == [[1, 4, 3, 4, 1], [1, 2, 1]]
  {
    var c0: seq<Vertex> := [1, 2, 1, 4, 3, 4];
    StaleOccurrences();
    assert Piece(c0, 2, 0) == [1, 4, 3, 4, 1];
    assert Piece(c0, 0, 2) == [1, 2, 1];
  }

  lemma StaleKeep()
    ensures var g := StaleGeometry();
      var n := Vec(0.0, 0.0, 1.0);
      var ps: seq<seq<Vertex>> := [[1, 4, 3, 4, 1], [1, 2, 1]];
      && Keep(g, n, ps, true) == [[1, 2, 1]]
      && Keep(g, n, ps, false) == [[1, 4, 3, 4, 1]]
  {
    var g := StaleGeometry();
    var n := Vec(0.0, 0.0, 1.0);
    var inner: seq<Vertex> := [1, 2, 1];
    var outer: seq<Vertex> := [1, 4, 3, 4, 1];
    var none: seq<seq<Vertex>> := [];
    assert Internal(g, n, inner);
    assert !Internal(g, n, outer);
    var ps := [outer, inner];
    assert ps[..1] == [outer] && [outer][..0] == none;
  }

  /** The internal sub-loop is folded into the only external one. */
  lemma StaleLocate()
    ensures var g := StaleGeometry();
      Locate(g, Vec(0.0, 0.0, 1.0), [[[1, 4, 3, 4, 1]], []], [[1, 2, 1]])
      == Some([[[1, 4, 3, 4, 1] + [1, 2, 1]], []])
  {
    var g := StaleGeometry();
    var n := Vec(0.0, 0.0, 1.0);
    var inner: seq<Vertex> := [1, 2, 1];
    var outer: seq<Vertex> := [1, 4, 3, 4, 1];
    var ext: seq<seq<seq<Vertex>>> := [[outer], []];
    assert FirstIn(g, n, [outer], g.position(2), 0) == Some(0);
    assert FirstContaining(g, n, ext, Sample(g, inner), 0) == Some((0, 0));
    assert ext[0][0 := outer + inner] == [outer + inner];
    assert Place(ext, 0, 0, inner) == [[outer + inner], []];
    assert [inner][1..] == [];
  }

  lemma StaleRewrite(ext: seq<seq<seq<Vertex>>>)
    requires ext == [[[1, 4, 3, 4, 1] + [1, 2, 1]], []]
    ensures Rewrite([[1, 2, 1, 4, 3, 4], [4, 1]], ext, 1) == [[1, 4, 3, 4, 1, 1, 2, 1], [4, 1]]
  {
    var c0: seq<Vertex> := [1, 2, 1, 4, 3, 4];
    var c1: seq<Vertex> := [4, 1];
    StaleOccurrences();
    ConcatSingle([1, 4, 3, 4, 1] + [1, 2, 1]);
    var r := Rewrite([c0, c1], ext, 1);
    assert r[0] == [1, 4, 3, 4, 1, 1, 2, 1];
    assert r[1] == c1;
  }

  /** A geometry in which three-point polygons are turned against the
      normal (0, 0, 1) and every point is inside every polygon. */
  function StaleGeometry(): Geometry
  {
    Geometry(
      v => Vec(v as real, 0.0, 0.0),
      pts => Origin,
      pts => if |pts| == 3 then Vec(0.0, 0.0, -1.0) else Vec(0.0, 0.0, 1.0),
      (pts, pt, dir) => Inside)
  }

  /** The positions of the two test vertices in the loops of the example. */
  lemma StaleOccurrences()
    ensures Occurrences([1, 2, 1, 4, 3, 4], 1) == [0, 2]
    ensures Occurrences([1, 2, 1, 4, 3, 4], 4) == [3, 5]
    ensures Occurrences([4, 1], 1) == [1]
    ensures Occurrences([1, 4, 3, 4, 1, 1, 2, 1], 4) == [1, 3]
  {
    StaleOccurrencesFirst();
    StaleOccurrencesSecond();
    OccurrencesOf([4, 1], 1, [1]);
  }

  lemma StaleOccurrencesSecond()
    ensures Occurrences([1, 4, 3, 4, 1, 1, 2, 1], 4) == [1, 3]
  {
    OccurrencesOf([1, 4, 3, 4, 1, 1, 2, 1], 4, [1, 3]);
  }

  lemma StaleOccurrencesFirst()
    ensures Occurrences([1, 2, 1, 4, 3, 4], 1) == [0, 2]
    ensures Occurrences([1, 2, 1, 4, 3, 4], 4) == [3, 5]
  {
    OccurrencesOf([1, 2, 1, 4, 3, 4], 1, [0, 2]);
    OccurrencesOf([1, 2, 1, 4, 3, 4], 4, [3, 5]);
  }

  /** The positions of v in a concrete loop, checked one by one. */
  lemma OccurrencesOf(c: seq<Vertex>, v: Vertex, P: seq<nat>)
    requires forall j :: 0 <= j < |P| ==> P[j] < |c| && c[P[j]] == v
    requires forall i, j :: 0 <= i < j < |P| ==> P[i] < P[j]
    requires forall p :: 0 <= p < |c| && c[p] == v ==> p in P
    ensures Occurrences(c, v) == P
  {
    var Q := Occurrences(c, v);
    forall x | x in P
      ensures x in Q
    {
      OccurrencesComplete(c, v, x);
    }
    SortedUnique(Q, P);
  }

  /** Two increasing sequences with the same elements are equal. */
  lemma {:induction false} SortedUnique(Q: seq<nat>, P: seq<nat>)
    requires forall i, j :: 0 <= i < j < |P| ==> P[i] < P[j]
    requires forall i, j :: 0 <= i < j < |Q| ==> Q[i] < Q[j]
    requires forall x :: x in P <==> x in Q
    ensures Q == P
    decreases |P| + |Q|
  {
    SameEmpty(P, Q);
    if P != [] {
      assert Q[0] in Q && P[0] in P;
      SortedFirst(P, Q[0]);
      SortedFirst(Q, P[0]);
      forall x | x in P[1..]
        ensures x in Q[1..]
      {
        TailMember(P, Q, x);
      }
      forall x | x in Q[1..]
        ensures x in P[1..]
      {
        TailMember(Q, P, x);
      }
      SortedUnique(Q[1..], P[1..]);
      assert P == [P[0]] + P[1..] && Q == [Q[0]] + Q[1..];
    }
  }

  /** With the same least element, what follows it in one increasing
      sequence follows it in the other. */
  lemma TailMember(P: seq<nat>, Q: seq<nat>, x: nat)
    requires forall i, j :: 0 <= i < j < |P| ==> P[i] < P[j]
    requires forall y :: y in P ==> y in Q
    requires P != [] && Q != [] && P[0] == Q[0]
    requires x in P[1..]
    ensures x in Q[1..]
  {
    var j :| 1 <= j < |P| && P[j] == x;
    assert P[0] < x && x in Q;
    var k :| 0 <= k < |Q| && Q[k] == x;
    assert k != 0 && Q[1..][k - 1] == x;
  }

  lemma SameEmpty(P: seq<nat>, Q: seq<nat>)
    requires forall x :: x in P <==> x in Q
    ensures P == [] <==> Q == []
  {
    if P != [] {
      assert P[0] in Q;
    }
    if Q != [] {
      assert Q[0] in P;
    }
  }

  /** The first element of an increasing sequence is its least. */
  lemma SortedFirst(P: seq<nat>, x: nat)
    requires forall i, j :: 0 <= i < j < |P| ==> P[i] < P[j]
    requires x in P
    ensures P[0] <= x
  {
    var j :| 0 <= j < |P| && P[j] == x;
    if j > 0 {
      assert P[0] < P[j];
    }
  }
}
