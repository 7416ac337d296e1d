// find_edge_chain and its follow_chain lambda (face_face.cc:264-348): from a
// boundary vertex of a face, follow pending two-vertex chains (segments),
// each at most once, until a segment ends on the face boundary again, and
// accept the path when a sample point of it lies inside the face. Segments
// are turned in place so that each starts where the previous one ended; the
// turns stay even when the search fails.
module EdgeChain {
  import opened Base

  /** A path of segments (indices into the pending chains) and the position
      in the face loop of the boundary vertex where it ends. */
  datatype Found = Found(chain: seq<nat>, last: nat)

  /** The pending chains after a search (some segments turned) and what the
      search found. */
  datatype Walk = Walk(edges: seq<seq<Vertex>>, found: Option<Found>)

  // ---------------------------------------------------------------------------
  // Specification functions

  /** A segment turned around (std::swap of its two vertices). */
  function Flip(e: seq<Vertex>): (r: seq<Vertex>)
    requires |e| == 2
    ensures |r| == 2 && r[0] == e[1] && r[1] == e[0]
  {
    [e[1], e[0]]
  }

  /** Segment q is unused and touches x (line 290 with the test of 284). */
  predicate Candidate(edges: seq<seq<Vertex>>, used: seq<bool>, x: Vertex, q: nat)
    requires |used| == |edges|
  {
    q < |edges| && !used[q] && |edges[q]| == 2 && (edges[q][0] == x || edges[q][1] == x)
  }

  /** The first candidate at or after `from` (the inner loop of lines 282-299). */
  function NextSegment(edges: seq<seq<Vertex>>, used: seq<bool>, x: Vertex, from: nat): (r: Option<nat>)
    requires |used| == |edges| && from <= |edges|
    ensures r.Some? ==> from <= r.value < |edges| && Candidate(edges, used, x, r.value)
    ensures forall q :: from <= q < (if r.Some? then r.value else |edges|) ==> !Candidate(edges, used, x, q)
    decreases |edges| - from
  {
    if from == |edges| then None
    else if Candidate(edges, used, x, from) then Some(from)
    else NextSegment(edges, used, x, from + 1)
  }

  /** Turns segment q so that it starts at x when it ends there. */
  function Orient(edges: seq<seq<Vertex>>, q: nat, x: Vertex): (r: seq<seq<Vertex>>)
    requires q < |edges| && |edges[q]| == 2
  {
    if edges[q][1] == x then edges[q := Flip(edges[q])] else edges
  }

  /** The number of segments not yet used. */
  function CountUnused(used: seq<bool>): nat
  {
    if used == [] then 0 else CountUnused(used[..|used| - 1]) + (if used[|used| - 1] then 0 else 1)
  }

  /** The loop of follow_chain (lines 278-303) from the path `ch`: stop when
      the last segment ends on the face loop `fv`, otherwise extend the path
      by the first unused segment that touches that end. */
  function Follow(edges: seq<seq<Vertex>>, fv: seq<Vertex>, used: seq<bool>, ch: seq<nat>): (r: Walk)
    requires |used| == |edges| && |ch| > 0 && ch[|ch| - 1] < |edges| && |edges[ch[|ch| - 1]]| == 2
    ensures |r.edges| == |edges| && forall q :: 0 <= q < |edges| ==> |r.edges[q]| == |edges[q]|
    ensures r.found.Some? ==> |r.found.value.chain| > 0 && r.found.value.chain[0] == ch[0]
    decreases CountUnused(used)
  {
    var x := edges[ch[|ch| - 1]][1];
    var at := IndexOf(fv, x);
    if at < |fv| then Walk(edges, Some(Found(ch, at)))
    else
      match NextSegment(edges, used, x, 0)
      case None => Walk(edges, None)
      case Some(q) =>
        MarkUsed(used, q);
        Follow(Orient(edges, q, x), fv, used[q := true], ch + [q])
  }

  /** The inside test of lines 305-323: the end of the first segment, or the
      middle of it when the path is a single segment, lies inside the face. */
  predicate InsideFace(g: Geometry, fv: seq<Vertex>, edges: seq<seq<Vertex>>, ch: seq<nat>)
    requires |ch| > 0 && ch[0] < |edges| && |edges[ch[0]]| == 2
  {
    var e := edges[ch[0]];
    var pt := if |ch| == 1 then Midpoint(g.position(e[1]), g.position(e[0])) else g.position(e[1]);
    g.classify(Points(g, fv), pt, None) == Inside
  }

  /** follow_chain as a whole, from segment `start`. */
  function FollowFrom(g: Geometry, edges: seq<seq<Vertex>>, fv: seq<Vertex>, start: nat): (r: Walk)
    requires start < |edges| && |edges[start]| == 2
    ensures |r.edges| == |edges| && forall q :: 0 <= q < |edges| ==> |r.edges[q]| == |edges[q]|
  {
    var w := Follow(edges, fv, seq(|edges|, _ => false)[start := true], [start]);
    match w.found
    case None => w
    case Some(f) =>
      if InsideFace(g, fv, w.edges, f.chain) then w else Walk(w.edges, None)
  }

  /** The search of lines 326-347 from segment p on: every segment holding
      `vert` is turned to start at it and followed; the first accepted path
      wins. */
  function FindFrom(g: Geometry, vert: Vertex, edges: seq<seq<Vertex>>, fv: seq<Vertex>, p: nat): (r: Walk)
    requires p <= |edges|
    ensures |r.edges| == |edges| && forall q :: 0 <= q < |edges| ==> |r.edges[q]| == |edges[q]|
    decreases |edges| - p
  {
    if p == |edges| then Walk(edges, None)
    else if |edges[p]| != 2 || (edges[p][0] != vert && edges[p][1] != vert) then FindFrom(g, vert, edges, fv, p + 1)
    else
      var turned := if edges[p][0] == vert then edges else edges[p := Flip(edges[p])];
      var w := FollowFrom(g, turned, fv, p);
      if w.found.Some? then w else FindFrom(g, vert, w.edges, fv, p + 1)
  }

  // ---------------------------------------------------------------------------
  // Methods: the loops of the source

  /** The search for the next segment (lines 282-299). */
  method NextUnused(edges: seq<seq<Vertex>>, used: array<bool>, x: Vertex) returns (r: Option<nat>)
    requires used.Length == |edges|
    ensures r == NextSegment(edges, used[..], x, 0)
  {
    for q := 0 to |edges|
      invariant NextSegment(edges, used[..], x, 0) == NextSegment(edges, used[..], x, q)
    {
      if !used[q] && |edges[q]| == 2 && (edges[q][0] == x || edges[q][1] == x) {
        return Some(q);
      }
    }
    r := None;
  }

  /** The follow_chain lambda: walks from segment `start` and applies the
      inside test. */
  method FollowChain(g: Geometry, edges: seq<seq<Vertex>>, fv: seq<Vertex>, start: nat)
    returns (edges': seq<seq<Vertex>>, found: Option<Found>)
    requires start < |edges| && |edges[start]| == 2
    ensures Walk(edges', found) == FollowFrom(g, edges, fv, start)
  {
    var used := new bool[|edges|](_ => false);
    assert used[..] == seq(|edges|, _ => false);
    used[start] := true;
    var w := FollowLinks(edges, fv, used, start);
    edges' := w.edges;
    found := w.found;
    if found.Some? {
      // The inside test (lines 305-323).
      var e := edges'[found.value.chain[0]];
      var pt := g.position(e[1]);
      if |found.value.chain| == 1 {
        pt := Midpoint(pt, g.position(e[0]));
      }
      if g.classify(Points(g, fv), pt, None) != Inside {
        found := None;
      }
    }
  }

  /** The loop of follow_chain (lines 278-303); `used` marks the segments
      already on the path. */
  method FollowLinks(edges: seq<seq<Vertex>>, fv: seq<Vertex>, used: array<bool>, start: nat) returns (w: Walk)
    requires start < |edges| && |edges[start]| == 2 && used.Length == |edges|
    modifies used
    ensures w == Follow(edges, fv, old(used[..]), [start])
  {
    ghost var used0 := used[..];
    var edges' := edges;
    var ch: seq<nat> := [start];
    var cur := start;
    var at := IndexOf(fv, edges'[cur][1]);
    while at == |fv|
      invariant used.Length == |edges'| == |edges|
      invariant |ch| > 0 && cur == ch[|ch| - 1] && cur < |edges'| && |edges'[cur]| == 2
      invariant at == IndexOf(fv, edges'[cur][1])
      invariant Follow(edges', fv, used[..], ch) == Follow(edges, fv, used0, [start])
      decreases CountUnused(used[..])
    {
      var x := edges'[cur][1];
      var q := NextUnused(edges', used, x);
      FollowStep(edges', fv, used[..], ch);
      if q.None? {
        return Walk(edges', None);
      }
      MarkUsed(used[..], q.value);
      ghost var oriented := Orient(edges', q.value, x);
      if edges'[q.value][1] == x {
        edges' := edges'[q.value := [edges'[q.value][1], edges'[q.value][0]]];
      }
      assert edges' == oriented;
      cur := q.value;
      ghost var before := used[..];
      used[cur] := true;
      assert used[..] == before[cur := true];
      ch := ch + [cur];
      at := IndexOf(fv, edges'[cur][1]);
    }
    FollowStep(edges', fv, used[..], ch);
    w := Walk(edges', Some(Found(ch, at)));
  }

  /** find_edge_chain (lines 264-348). */
  method FindEdgeChain(g: Geometry, vert: Vertex, edges: seq<seq<Vertex>>, fv: seq<Vertex>)
    returns (edges': seq<seq<Vertex>>, found: Option<Found>)
    ensures Walk(edges', found) == FindFrom(g, vert, edges, fv, 0)
  {
    edges' := edges;
    for p := 0 to |edges|
      invariant |edges'| == |edges|
      invariant FindFrom(g, vert, edges', fv, p) == FindFrom(g, vert, edges, fv, 0)
    {
      FindStep(g, vert, edges', fv, p);
      if |edges'[p]| != 2 || (edges'[p][0] != vert && edges'[p][1] != vert) {
        continue;
      }
      if edges'[p][0] != vert {
        edges' := edges'[p := [edges'[p][1], edges'[p][0]]];
      }
      var e2, f := FollowChain(g, edges', fv, p);
      if f.Some? {
        return e2, f;
      }
      edges' := e2;
    }
    found := None;
  }

  // ---------------------------------------------------------------------------
  // Lemmas

  lemma {:induction false} MarkUsed(used: seq<bool>, q: nat)
    requires q < |used| && !used[q]
    ensures CountUnused(used[q := true]) < CountUnused(used)
    decreases |used|
  {
    var n := |used| - 1;
    assert used[q := true][..n] == (if q < n then used[..n][q := true] else used[..n]);
    if q < n {
      MarkUsed(used[..n], q);
    }
  }

  /** One round of the loop of follow_chain, as Follow takes it. */
  lemma FollowStep(edges: seq<seq<Vertex>>, fv: seq<Vertex>, used: seq<bool>, ch: seq<nat>)
    requires |used| == |edges| && |ch| > 0 && ch[|ch| - 1] < |edges| && |edges[ch[|ch| - 1]]| == 2
    ensures var x := edges[ch[|ch| - 1]][1];
      var at := IndexOf(fv, x);
      var w := Follow(edges, fv, used, ch);
      && (at < |fv| ==> w == Walk(edges, Some(Found(ch, at))))
      && (at == |fv| && NextSegment(edges, used, x, 0).None? ==> w == Walk(edges, None))
      && (at == |fv| && NextSegment(edges, used, x, 0).Some? ==>
            var q := NextSegment(edges, used, x, 0).value;
            w == Follow(Orient(edges, q, x), fv, used[q := true], ch + [q]))
  {
  }

  /** One round of the search of find_edge_chain, as FindFrom takes it. */
  lemma FindStep(g: Geometry, vert: Vertex, edges: seq<seq<Vertex>>, fv: seq<Vertex>, p: nat)
    requires p < |edges|
    ensures var r := FindFrom(g, vert, edges, fv, p);
      && (|edges[p]| != 2 || (edges[p][0] != vert && edges[p][1] != vert) ==> r == FindFrom(g, vert, edges, fv, p + 1))
      && (|edges[p]| == 2 && (edges[p][0] == vert || edges[p][1] == vert) ==>
            var turned := if edges[p][0] == vert then edges else edges[p := Flip(edges[p])];
            var w := FollowFrom(g, turned, fv, p);
            r == if w.found.Some? then w else FindFrom(g, vert, w.edges, fv, p + 1))
  {
  }

  /** The path's segments are two-vertex chains, each used once, and each
      starts where the previous one ends. */
  ghost predicate Linked(edges: seq<seq<Vertex>>, ch: seq<nat>)
  {
    && (forall i :: 0 <= i < |ch| ==> ch[i] < |edges| && |edges[ch[i]]| == 2)
    && (forall i, j :: 0 <= i < j < |ch| ==> ch[i] != ch[j])
    && (forall i, j :: 0 <= i < j < |ch| && j == i + 1 ==> edges[ch[i]][1] == edges[ch[j]][0])
  }

  /** Only the end of the path's last segment lies on the face loop. */
  ghost predicate StopsAtBoundary(edges: seq<seq<Vertex>>, fv: seq<Vertex>, ch: seq<nat>)
    requires Linked(edges, ch)
  {
    forall i :: 0 <= i < |ch| - 1 ==> edges[ch[i]][1] !in fv
  }

  /** Every segment is kept as it was or turned around. */
  ghost predicate Reoriented(edges: seq<seq<Vertex>>, edges': seq<seq<Vertex>>)
  {
    && |edges'| == |edges|
    && forall q :: 0 <= q < |edges| ==> edges'[q] == edges[q] || (|edges[q]| == 2 && edges'[q] == Flip(edges[q]))
  }

  /** A walk state: the path is linked, marked used, and has not touched the
      boundary before its last segment. */
  ghost predicate WalkState(edges: seq<seq<Vertex>>, fv: seq<Vertex>, used: seq<bool>, ch: seq<nat>)
  {
    && |used| == |edges| && |ch| > 0
    && Linked(edges, ch)
    && StopsAtBoundary(edges, fv, ch)
    && forall i :: 0 <= i < |ch| ==> used[ch[i]]
  }

  /** A found path extends the starting one `ch`, its segments link up and
      are used once, and it stops at the first segment end found on the face
      loop. */
  ghost predicate PathFrom(edges: seq<seq<Vertex>>, fv: seq<Vertex>, ch: seq<nat>, f: Found)
  {
    && |f.chain| >= |ch| && f.chain[..|ch|] == ch
    && Linked(edges, f.chain)
    && StopsAtBoundary(edges, fv, f.chain)
    && |f.chain| > 0 && f.last < |fv| && fv[f.last] == edges[f.chain[|f.chain| - 1]][1]
  }

  /** What a walk from `ch` leaves behind: only unused segments are turned,
      and a found path is a path from `ch`. */
  ghost predicate Outcome(edges: seq<seq<Vertex>>, fv: seq<Vertex>, used: seq<bool>, ch: seq<nat>, w: Walk)
    requires |used| == |edges|
  {
    && Reoriented(edges, w.edges)
    && (forall q :: 0 <= q < |edges| && used[q] ==> w.edges[q] == edges[q])
    && (w.found.Some? ==> PathFrom(w.edges, fv, ch, w.found.value))
  }

  /** What follow_chain guarantees. */
  lemma {:induction false} FollowShape(edges: seq<seq<Vertex>>, fv: seq<Vertex>, used: seq<bool>, ch: seq<nat>)
    requires WalkState(edges, fv, used, ch)
    ensures Outcome(edges, fv, used, ch, Follow(edges, fv, used, ch))
    decreases CountUnused(used)
  {
    var x := edges[ch[|ch| - 1]][1];
    var at := IndexOf(fv, x);
    FollowStep(edges, fv, used, ch);
    if at == |fv| {
      match NextSegment(edges, used, x, 0)
      case None =>
      case Some(q) =>
        MarkUsed(used, q);
        var e' := Orient(edges, q, x);
        WalkStep(edges, fv, used, ch, q);
        FollowShape(e', fv, used[q := true], ch + [q]);
        OutcomeCompose(edges, e', fv, used, ch, q, Follow(e', fv, used[q := true], ch + [q]));
    }
  }

  /** The outcome of the rest of the walk is an outcome of the whole walk. */
  lemma OutcomeCompose(edges: seq<seq<Vertex>>, e': seq<seq<Vertex>>, fv: seq<Vertex>, used: seq<bool>,
                       ch: seq<nat>, q: nat, w: Walk)
    requires |used| == |edges| && q < |edges|
    requires Reoriented(edges, e') && forall r :: 0 <= r < |edges| && used[r] ==> e'[r] == edges[r]
    requires Outcome(e', fv, used[q := true], ch + [q], w)
    ensures Outcome(edges, fv, used, ch, w)
  {
    ReorientedTrans(edges, e', w.edges);
    if w.found.Some? {
      var f := w.found.value;
      assert f.chain[..|ch|] == f.chain[..|ch| + 1][..|ch|];
    }
  }

  /** One extension of the path keeps a walk state. */
  lemma WalkStep(edges: seq<seq<Vertex>>, fv: seq<Vertex>, used: seq<bool>, ch: seq<nat>, q: nat)
    requires WalkState(edges, fv, used, ch)
    requires var x := edges[ch[|ch| - 1]][1];
      IndexOf(fv, x) == |fv| && NextSegment(edges, used, x, 0) == Some(q)
    ensures var x := edges[ch[|ch| - 1]][1];
      && WalkState(Orient(edges, q, x), fv, used[q := true], ch + [q])
      && Reoriented(edges, Orient(edges, q, x))
      && forall r :: 0 <= r < |edges| && used[r] ==> Orient(edges, q, x)[r] == edges[r]
  {
    var x := edges[ch[|ch| - 1]][1];
    var e' := Orient(edges, q, x);
    assert forall i :: 0 <= i < |ch| ==> ch[i] != q;
    KeepPath(edges, e', ch, q);
    ExtendLinked(e', ch, q, x);
    ExtendStops(e', fv, ch, q, x);
  }

  /** Turning a segment off the path changes nothing on the path. */
  lemma KeepPath(edges: seq<seq<Vertex>>, e': seq<seq<Vertex>>, ch: seq<nat>, q: nat)
    requires Linked(edges, ch) && |e'| == |edges| && q < |edges|
    requires forall r :: 0 <= r < |edges| && r != q ==> e'[r] == edges[r]
    requires forall i :: 0 <= i < |ch| ==> ch[i] != q
    ensures forall i :: 0 <= i < |ch| ==> e'[ch[i]] == edges[ch[i]]
    ensures Linked(e', ch)
  {
  }

  lemma ExtendLinked(e': seq<seq<Vertex>>, ch: seq<nat>, q: nat, x: Vertex)
    requires Linked(e', ch) && |ch| > 0 && e'[ch[|ch| - 1]][1] == x
    requires q < |e'| && |e'[q]| == 2 && e'[q][0] == x
    requires forall i :: 0 <= i < |ch| ==> ch[i] != q
    ensures Linked(e', ch + [q])
  {
    var c := ch + [q];
    forall i, j | 0 <= i < j < |c| && j == i + 1
      ensures e'[c[i]][1] == e'[c[j]][0]
    {
      if j < |ch| {
        assert c[i] == ch[i] && c[j] == ch[j];
      }
    }
  }

  lemma ExtendStops(e': seq<seq<Vertex>>, fv: seq<Vertex>, ch: seq<nat>, q: nat, x: Vertex)
    requires Linked(e', ch) && Linked(e', ch + [q]) && StopsAtBoundary(e', fv, ch)
    requires |ch| > 0 && e'[ch[|ch| - 1]][1] == x && x !in fv
    ensures StopsAtBoundary(e', fv, ch + [q])
  {
    var c := ch + [q];
    forall i | 0 <= i < |c| - 1
      ensures e'[c[i]][1] !in fv
    {
      assert c[i] == ch[i];
    }
  }

  /** follow_chain from a segment that starts at `vert`. */
  lemma FollowFromShape(g: Geometry, vert: Vertex, edges: seq<seq<Vertex>>, fv: seq<Vertex>, p: nat)
    requires p < |edges| && |edges[p]| == 2 && edges[p][0] == vert
    ensures var w := FollowFrom(g, edges, fv, p);
      && Reoriented(edges, w.edges)
      && (w.found.Some? ==> FoundPath(g, vert, w.edges, fv, w.found.value))
  {
    var used := seq(|edges|, _ => false)[p := true];
    assert WalkState(edges, fv, used, [p]);
    FollowShape(edges, fv, used, [p]);
    var w := FollowFrom(g, edges, fv, p);
    if w.found.Some? {
      assert w.found.value.chain[..1] == [p];
      assert w.found.value.chain[0] == p;
    }
  }

  /** A found path starts at `vert`, is a linked path of distinct two-vertex
      chains that reaches the face loop only at its end, and passed the
      inside test. */
  ghost predicate FoundPath(g: Geometry, vert: Vertex, edges: seq<seq<Vertex>>, fv: seq<Vertex>, f: Found)
  {
    && |f.chain| > 0
    && Linked(edges, f.chain)
    && StopsAtBoundary(edges, fv, f.chain)
    && edges[f.chain[0]][0] == vert
    && f.last < |fv| && fv[f.last] == edges[f.chain[|f.chain| - 1]][1]
    && InsideFace(g, fv, edges, f.chain)
  }

  /** find_edge_chain turns segments but never changes their vertices, and
      what it finds is a path from `vert` as above. */
  lemma {:induction false} FindShape(g: Geometry, vert: Vertex, edges: seq<seq<Vertex>>, fv: seq<Vertex>, p: nat)
    requires p <= |edges|
    ensures var w := FindFrom(g, vert, edges, fv, p);
      && Reoriented(edges, w.edges)
      && (w.found.Some? ==> FoundPath(g, vert, w.edges, fv, w.found.value))
    decreases |edges| - p
  {
    if p < |edges| {
      if |edges[p]| != 2 || (edges[p][0] != vert && edges[p][1] != vert) {
        FindShape(g, vert, edges, fv, p + 1);
      } else {
        var turned := if edges[p][0] == vert then edges else edges[p := Flip(edges[p])];
        FollowFromShape(g, vert, turned, fv, p);
        var w := FollowFrom(g, turned, fv, p);
        ReorientedTrans(edges, turned, w.edges);
        if w.found.None? {
          FindShape(g, vert, w.edges, fv, p + 1);
          ReorientedTrans(edges, w.edges, FindFrom(g, vert, w.edges, fv, p + 1).edges);
        }
      }
    }
  }

  lemma ReorientedTrans(a: seq<seq<Vertex>>, b: seq<seq<Vertex>>, c: seq<seq<Vertex>>)
    requires Reoriented(a, b) && Reoriented(b, c)
    ensures Reoriented(a, c)
  {
  }
}
