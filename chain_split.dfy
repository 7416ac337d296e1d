// The two loops split_with_chains builds from a path of segments found by
// find_edge_chain (face_face.cc:497-521): the path followed by the boundary
// arc back to its start, and the reversed path followed by the other arc
// (the complete_chain lambda).
module ChainSplit {
  import opened Base
  import opened EdgeChain

  // ---------------------------------------------------------------------------
  // Specification functions

  /** The segments of the path are two-vertex chains. */
  ghost predicate Segments(edges: seq<seq<Vertex>>, ch: seq<nat>)
  {
    |ch| > 0 && forall i :: 0 <= i < |ch| ==> ch[i] < |edges| && |edges[ch[i]]| == 2
  }

  /** The path's vertices: the start of its first segment, then the end of
      every segment (lines 498-501). */
  function PathOf(edges: seq<seq<Vertex>>, ch: seq<nat>): (r: seq<Vertex>)
    requires Segments(edges, ch)
  {
    [edges[ch[0]][0]] + seq(|ch|, i requires 0 <= i < |ch| => edges[ch[i]][1])
  }

  /** The boundary vertices strictly after position a, cyclically up to
      strictly before position b; the whole loop but a when a == b. */
  function Arc(fv: seq<Vertex>, a: nat, b: nat): seq<Vertex>
    requires a < |fv| && b < |fv|
  {
    if a < b then fv[a + 1..b] else fv[a + 1..] + fv[..b]
  }

  /** split_chains after completion (lines 502-521): the path from the
      boundary vertex at `first` to the one at `last` closed by the arc from
      `last` back to `first`, and the reversed path closed by the arc from
      `first` to `last` (left out when both ends are the same vertex). */
  function SplitChainsOf(edges: seq<seq<Vertex>>, ch: seq<nat>, fv: seq<Vertex>, first: nat, last: nat): seq<seq<Vertex>>
    requires Segments(edges, ch) && first < |fv| && last < |fv|
  {
    var path := PathOf(edges, ch);
    [path + Arc(fv, last, first), Reverse(path) + (if last != first then Arc(fv, first, last) else [])]
  }

  // ---------------------------------------------------------------------------
  // Methods: the loops of the source

  /** Lines 497-501: the path's vertices. */
  method PathVertices(edges: seq<seq<Vertex>>, ch: seq<nat>) returns (path: seq<Vertex>)
    requires Segments(edges, ch)
    ensures path == PathOf(edges, ch)
  {
    path := [edges[ch[0]][0]];
    for i := 0 to |ch|
      invariant path == [edges[ch[0]][0]] + seq(i, j requires 0 <= j < i => edges[ch[j]][1])
    {
      path := path + [edges[ch[i]][1]];
    }
  }

  /** The complete_chain lambda (lines 506-515): appends the boundary
      vertices after `first` up to `last`, wrapping around the end of the
      loop. */
  method CompleteChain(fv: seq<Vertex>, first: nat, last: nat, chain: seq<Vertex>) returns (r: seq<Vertex>)
    requires first < |fv| && last < |fv|
    ensures r == chain + Arc(fv, first, last)
  {
    r := chain;
    var v := first + 1;
    while v != last && v != |fv|
      invariant first < v <= |fv|
      invariant first < last ==> v <= last
      invariant r == chain + fv[first + 1..v]
      decreases |fv| - v
    {
      r := r + [fv[v]];
      v := v + 1;
    }
    if v == last {
      return;
    }
    ghost var wrapped := r;
    v := 0;
    while v != last
      invariant v <= last
      invariant r == wrapped + fv[..v]
      decreases last - v
    {
      r := r + [fv[v]];
      v := v + 1;
    }
    assert fv[first + 1..|fv|] == fv[first + 1..];
  }

  /** Lines 497-515: both split chains. */
  method BuildSplitChains(edges: seq<seq<Vertex>>, ch: seq<nat>, fv: seq<Vertex>, first: nat, last: nat)
    returns (chains: seq<seq<Vertex>>)
    requires Segments(edges, ch) && first < |fv| && last < |fv|
    ensures chains == SplitChainsOf(edges, ch, fv, first, last)
  {
    var path := PathVertices(edges, ch);
    var back := Reverse(path);
    if last != first {
      back := CompleteChain(fv, first, last, back);
    }
    var front := CompleteChain(fv, last, first, path);
    chains := [front, back];
    assert Reverse(path) + [] == Reverse(path);
  }

  // ---------------------------------------------------------------------------
  // Lemmas

  /** Both arcs between two distinct positions, with the vertices at those
      positions, spell the boundary loop read from position a on. */
  lemma ArcsRotate(fv: seq<Vertex>, a: nat, b: nat)
    requires a < |fv| && b < |fv| && a != b
    ensures [fv[a]] + Arc(fv, a, b) + [fv[b]] + Arc(fv, b, a) == Rotate(fv, a)
  {
    if a < b {
      ArcsForward(fv, a, b);
    } else {
      ArcsWrapped(fv, a, b);
    }
  }

  lemma ArcsForward(fv: seq<Vertex>, a: nat, b: nat)
    requires a < b < |fv|
    ensures [fv[a]] + Arc(fv, a, b) + [fv[b]] + Arc(fv, b, a) == Rotate(fv, a)
  {
    var x, y, z := fv[a + 1..b], fv[b + 1..], fv[..a];
    assert fv[a..] == [fv[a]] + x + [fv[b]] + y;
    calc {
      [fv[a]] + x + [fv[b]] + (y + z);
      ([fv[a]] + x + [fv[b]] + y) + z;
    }
  }

  lemma ArcsWrapped(fv: seq<Vertex>, a: nat, b: nat)
    requires b < a < |fv|
    ensures [fv[a]] + Arc(fv, a, b) + [fv[b]] + Arc(fv, b, a) == Rotate(fv, a)
  {
    var x, y, z := fv[a + 1..], fv[..b], fv[b + 1..a];
    assert fv[a..] == [fv[a]] + x;
    assert fv[..a] == y + [fv[b]] + z;
    calc {
      [fv[a]] + (x + y) + [fv[b]] + z;
      ([fv[a]] + x) + (y + [fv[b]] + z);
    }
  }

  /** With a single boundary vertex, the arc is the rest of the loop. */
  lemma ArcAround(fv: seq<Vertex>, a: nat)
    requires a < |fv|
    ensures [fv[a]] + Arc(fv, a, a) == Rotate(fv, a)
  {
    assert fv[a..] == [fv[a]] + fv[a + 1..];
  }

  /** Rotating a loop keeps its vertices. */
  lemma RotateMultiset(fv: seq<Vertex>, a: nat)
    requires a <= |fv|
    ensures multiset(Rotate(fv, a)) == multiset(fv)
  {
    assert fv == fv[..a] + fv[a..];
  }

  /** The boundary is divided between the two split loops: every boundary
      vertex other than the path's two ends lies on exactly one of the arcs. */
  lemma ArcsPartition(fv: seq<Vertex>, a: nat, b: nat)
    requires a < |fv| && b < |fv| && a != b
    ensures multiset(Arc(fv, a, b)) + multiset(Arc(fv, b, a)) + multiset{fv[a], fv[b]} == multiset(fv)
    ensures |Arc(fv, a, b)| + |Arc(fv, b, a)| == |fv| - 2
  {
    ArcsRotate(fv, a, b);
    RotateMultiset(fv, a);
    var A := Arc(fv, a, b);
    var B := Arc(fv, b, a);
    assert multiset([fv[a]] + A + [fv[b]] + B) == multiset{fv[a]} + multiset(A) + multiset{fv[b]} + multiset(B);
  }

  /** The path runs from the boundary vertex at `first` to the one at
      `last`, each consecutive pair being a segment. */
  lemma PathEnds(edges: seq<seq<Vertex>>, ch: seq<nat>)
    requires Segments(edges, ch) && Linked(edges, ch)
    ensures var path := PathOf(edges, ch);
      && |path| == |ch| + 1
      && path[0] == edges[ch[0]][0]
      && path[|ch|] == edges[ch[|ch| - 1]][1]
      && forall i :: 0 <= i < |ch| ==> [path[i], path[i + 1]] == edges[ch[i]]
  {
    var path := PathOf(edges, ch);
    forall i | 0 <= i < |ch|
      ensures [path[i], path[i + 1]] == edges[ch[i]]
    {
      if i > 0 {
        assert edges[ch[i - 1]][1] == edges[ch[i]][0];
      }
    }
  }

  /** For a path found by find_edge_chain from the boundary vertex at
      `first`: the first split loop leaves that vertex along the path,
      reaches the boundary at `last` and returns along the boundary; the
      second leaves `last` along the reversed path. When the ends differ,
      between them they hold every boundary vertex, the two ends once each
      in the boundary order. When the path comes back to the vertex it left,
      the first loop holds the whole boundary and the second is the reversed
      path alone (a loop hanging on the boundary at that vertex). */
  lemma SplitChainsCover(g: Geometry, edges: seq<seq<Vertex>>, fv: seq<Vertex>, f: Found, first: nat)
    requires first < |fv| && FoundPath(g, fv[first], edges, fv, f)
    ensures var chains := SplitChainsOf(edges, f.chain, fv, first, f.last);
      var path := PathOf(edges, f.chain);
      && chains[0][0] == fv[first] && chains[0][|path| - 1] == fv[f.last]
      && chains[1][0] == fv[f.last] && chains[1][|path| - 1] == fv[first]
      && (first != f.last ==>
            [fv[f.last]] + chains[0][|path|..] + [fv[first]] + chains[1][|path|..] == Rotate(fv, f.last))
      && (first == f.last ==>
            chains[1] == Reverse(path) && [fv[f.last]] + chains[0][|path|..] == Rotate(fv, f.last))
  {
    var path := PathOf(edges, f.chain);
    PathEnds(edges, f.chain);
    if first != f.last {
      ArcsRotate(fv, f.last, first);
    } else {
      ArcAround(fv, f.last);
      assert (path + Arc(fv, f.last, first))[|path|..] == Arc(fv, f.last, f.last);
    }
  }
}
