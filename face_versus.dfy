// FaceVersus::face_intersect (face_face.cc:83-110) and its helper
// face_vertices (lines 18-27): every pair of faces, one from each solid,
// that shares at least two vertices registers the shared vertices as a
// chain on both faces; then the face-edge map is initialised and split.
module FaceVersus {
  import opened Base
  import opened Topology
  import opened FaceEdgeMap

  // ---------------------------------------------------------------------------
  // Ordered vertex sets (std::set<Wrap<VERTEX>>)

  /** The std::set built by inserting xs in order: its elements, increasing. */
  function SortedSet(xs: seq<Vertex>): (r: seq<Vertex>)
    ensures Increasing(r)
    decreases |xs|
  {
    if xs == [] then [] else
      var m := |xs| - 1;
      Insert(SortedSet(xs[..m]), xs[m])
  }

  /** The set holds exactly the inserted vertices. */
  lemma {:induction false} SortedSetShape(xs: seq<Vertex>)
    ensures forall v :: v in SortedSet(xs) <==> v in xs
    decreases |xs|
  {
    if xs != [] {
      var m := |xs| - 1;
      SortedSetShape(xs[..m]);
      assert xs == xs[..m] + [xs[m]];
    }
  }

  /** The new vertices recorded on a face (f_vert_info_[face].new_vert_list_,
      empty for a face without an entry). */
  function NewVerts(nv: map<FaceId, seq<Vertex>>, f: FaceId): seq<Vertex>
  {
    if f in nv then nv[f] else []
  }

  /** face_vertices (lines 18-27): the face's new vertices and its boundary
      vertices, as an ordered set. */
  function FaceVertices(nv: map<FaceId, seq<Vertex>>, sh: Shape, f: FaceId): seq<Vertex>
  {
    SortedSet(NewVerts(nv, f) + LoopOf(sh, f))
  }

  /** The elements of a that are also in b, in the order of a. */
  function Filter(a: seq<Vertex>, b: seq<Vertex>): seq<Vertex>
    decreases |a|
  {
    if a == [] then []
    else
      var m := |a| - 1;
      Filter(a[..m], b) + (if a[m] in b then [a[m]] else [])
  }

  lemma {:induction false} FilterShape(a: seq<Vertex>, b: seq<Vertex>)
    requires Increasing(a)
    ensures Increasing(Filter(a, b))
    ensures forall v :: v in Filter(a, b) <==> v in a && v in b
    decreases |a|
  {
    if a != [] {
      var m := |a| - 1;
      FilterShape(a[..m], b);
      assert a == a[..m] + [a[m]];
      forall v | v in Filter(a[..m], b)
        ensures v < a[m]
      {
        var p :| 0 <= p < m && a[p] == v;
      }
      IncreasingAppend(Filter(a[..m], b), a[m]);
    }
  }

  lemma IncreasingAppend(s: seq<Vertex>, x: Vertex)
    requires Increasing(s) && forall v :: v in s ==> v < x
    ensures Increasing(s + [x])
  {
    forall i, j | 0 <= i < j < |s| + 1
      ensures (s + [x])[i] < (s + [x])[j]
    {
      if j == |s| {
        assert s[i] in s;
      }
    }
  }

  /** Filtering ignores a tail with nothing in b. */
  lemma {:induction false} FilterTail(a: seq<Vertex>, b: seq<Vertex>, i: nat)
    requires i <= |a| && forall p :: i <= p < |a| ==> a[p] !in b
    ensures Filter(a, b) == Filter(a[..i], b)
    decreases |a|
  {
    if |a| > i {
      var m := |a| - 1;
      FilterTail(a[..m], b, i);
      assert a[..m][..i] == a[..i];
    } else {
      assert a[..i] == a;
    }
  }

  /** The vertices two faces share (lines 94-98): those of the first face's
      set that are in the second's, in increasing order. */
  function Common(nv: map<FaceId, seq<Vertex>>, sh: Shape, fa: FaceId, fb: FaceId): seq<Vertex>
  {
    Filter(FaceVertices(nv, sh, fa), FaceVertices(nv, sh, fb))
  }

  /** What two faces share is exactly the vertices on both, in increasing
      order. */
  lemma CommonShape(nv: map<FaceId, seq<Vertex>>, sh: Shape, fa: FaceId, fb: FaceId)
    ensures Increasing(Common(nv, sh, fa, fb))
    ensures forall v :: v in Common(nv, sh, fa, fb) <==>
      (v in NewVerts(nv, fa) || v in LoopOf(sh, fa)) && (v in NewVerts(nv, fb) || v in LoopOf(sh, fb))
  {
    SortedSetShape(NewVerts(nv, fa) + LoopOf(sh, fa));
    SortedSetShape(NewVerts(nv, fb) + LoopOf(sh, fb));
    FilterShape(FaceVertices(nv, sh, fa), FaceVertices(nv, sh, fb));
  }

  // ---------------------------------------------------------------------------
  // The collection loops

  /** The pair loops of lines 87-104 from face a of the first solid and face
      b of the second on: a pair sharing at least two vertices registers them
      on both faces. */
  function Collect(g: Geometry, sh: Shape, nv: map<FaceId, seq<Vertex>>, A: seq<FaceId>, B: seq<FaceId>,
                   a: nat, b: nat, tables: seq<Table>, order: seq<seq<FaceId>>): (r: (seq<Table>, seq<seq<FaceId>>))
    requires a <= |A| && b <= |B| && |tables| == 2 && |order| == 2 && Increasing(order[0]) && Increasing(order[1])
    ensures |r.0| == 2 && |r.1| == 2 && Increasing(r.1[0]) && Increasing(r.1[1])
    decreases |A| - a, |B| - b
  {
    if a == |A| then (tables, order)
    else if b == |B| then Collect(g, sh, nv, A, B, a + 1, 0, tables, order)
    else
      var (tables', order') := Register(g, sh, tables, order, A[a], B[b], Common(nv, sh, A[a], B[b]));
      Collect(g, sh, nv, A, B, a, b + 1, tables', order')
  }

  /** The body of lines 92-103 for one pair of faces: shared vertices, if
      at least two, become a chain of both faces. */
  function Register(g: Geometry, sh: Shape, tables: seq<Table>, order: seq<seq<FaceId>>, fa: FaceId, fb: FaceId, common: seq<Vertex>)
    : (r: (seq<Table>, seq<seq<FaceId>>))
    requires |tables| == 2 && |order| == 2 && Increasing(order[0]) && Increasing(order[1])
    ensures |r.0| == 2 && |r.1| == 2 && Increasing(r.1[0]) && Increasing(r.1[1])
  {
    if |common| < 2 then (tables, order)
    else
      ([AddEdge(g, sh, tables[0], fa, common), AddEdge(g, sh, tables[1], fb, common)],
       [Insert(order[0], fa), Insert(order[1], fb)])
  }

  /** face_intersect on values: collect, initialise, split. The result is
      the final state: the tables, the kernel's faces and the overlap lists. */
  function Intersect(g: Geometry, k: Kernel, sh: Shape, nv: map<FaceId, seq<Vertex>>, A: seq<FaceId>, B: seq<FaceId>,
                     overlap: seq<seq<FaceId>>): Result<State>
    requires |overlap| == 2
  {
    var (tables, order) := Collect(g, sh, nv, A, B, 0, 0, [map[], map[]], [[], []]);
    SplitAll(g, k, order, State([Initialised(tables[0]), Initialised(tables[1])], sh, overlap))
  }

  /** A registered chain: at least two increasing vertices, all on face f. */
  ghost predicate ChainOn(nv: map<FaceId, seq<Vertex>>, sh: Shape, f: FaceId, c: seq<Vertex>)
  {
    |c| >= 2 && Increasing(c) && forall v :: v in c ==> v in NewVerts(nv, f) || v in LoopOf(sh, f)
  }

  /** What a freshly collected table holds: only faces of its solid F, no
      live face yet, and only chains registered on their own face. */
  ghost predicate Collected(nv: map<FaceId, seq<Vertex>>, sh: Shape, F: seq<FaceId>, t: Table)
  {
    forall f :: f in t ==> f in F && t[f].faces == [] && forall c :: c in t[f].edges ==> ChainOn(nv, sh, f, c)
  }

  /** Both tables collected, table 0 from the faces of A and table 1 from
      those of B, each with its keys in order. */
  ghost predicate Tables(nv: map<FaceId, seq<Vertex>>, sh: Shape, A: seq<FaceId>, B: seq<FaceId>,
                         tables: seq<Table>, order: seq<seq<FaceId>>)
  {
    && |tables| == 2 && |order| == 2
    && Collected(nv, sh, A, tables[0]) && Collected(nv, sh, B, tables[1])
    && Ordered(tables[0], order[0]) && Ordered(tables[1], order[1])
  }

  lemma {:induction false} CollectShape(g: Geometry, sh: Shape, nv: map<FaceId, seq<Vertex>>, A: seq<FaceId>, B: seq<FaceId>,
                                        a: nat, b: nat, tables: seq<Table>, order: seq<seq<FaceId>>)
    requires a <= |A| && b <= |B| && Tables(nv, sh, A, B, tables, order)
    ensures var r := Collect(g, sh, nv, A, B, a, b, tables, order); Tables(nv, sh, A, B, r.0, r.1)
    decreases |A| - a, |B| - b, 2
  {
    if a == |A| {
      CollectDone(g, sh, nv, A, B, b, tables, order);
    } else if b == |B| {
      CollectNextFace(g, sh, nv, A, B, a, tables, order);
    } else {
      CollectPairShape(g, sh, nv, A, B, a, b, tables, order);
    }
  }

  lemma CollectDone(g: Geometry, sh: Shape, nv: map<FaceId, seq<Vertex>>, A: seq<FaceId>, B: seq<FaceId>,
                    b: nat, tables: seq<Table>, order: seq<seq<FaceId>>)
    requires b <= |B| && Tables(nv, sh, A, B, tables, order)
    ensures var r := Collect(g, sh, nv, A, B, |A|, b, tables, order); Tables(nv, sh, A, B, r.0, r.1)
  {
    assert Collect(g, sh, nv, A, B, |A|, b, tables, order) == (tables, order);
  }

  lemma {:induction false} CollectNextFace(g: Geometry, sh: Shape, nv: map<FaceId, seq<Vertex>>, A: seq<FaceId>, B: seq<FaceId>,
                                           a: nat, tables: seq<Table>, order: seq<seq<FaceId>>)
    requires a < |A| && Tables(nv, sh, A, B, tables, order)
    ensures var r := Collect(g, sh, nv, A, B, a, |B|, tables, order); Tables(nv, sh, A, B, r.0, r.1)
    decreases |A| - a, 0, 1
  {
    assert Collect(g, sh, nv, A, B, a, |B|, tables, order) == Collect(g, sh, nv, A, B, a + 1, 0, tables, order);
    CollectShape(g, sh, nv, A, B, a + 1, 0, tables, order);
  }

  lemma {:induction false} CollectPairShape(g: Geometry, sh: Shape, nv: map<FaceId, seq<Vertex>>, A: seq<FaceId>, B: seq<FaceId>,
                                            a: nat, b: nat, tables: seq<Table>, order: seq<seq<FaceId>>)
    requires a < |A| && b < |B| && Tables(nv, sh, A, B, tables, order)
    ensures var r := Collect(g, sh, nv, A, B, a, b, tables, order); Tables(nv, sh, A, B, r.0, r.1)
    decreases |A| - a, |B| - b, 0
  {
    var tables', order' := CollectStep(g, sh, nv, A, B, a, b, tables, order);
    CollectShape(g, sh, nv, A, B, a, b + 1, tables', order');
  }

  /** One pair of faces examined: Collect goes on from a state that still
      satisfies Tables. */
  lemma CollectStep(g: Geometry, sh: Shape, nv: map<FaceId, seq<Vertex>>, A: seq<FaceId>, B: seq<FaceId>,
                    a: nat, b: nat, tables: seq<Table>, order: seq<seq<FaceId>>)
    returns (tables': seq<Table>, order': seq<seq<FaceId>>)
    requires a < |A| && b < |B| && Tables(nv, sh, A, B, tables, order)
    ensures Tables(nv, sh, A, B, tables', order')
    ensures Collect(g, sh, nv, A, B, a, b, tables, order) == Collect(g, sh, nv, A, B, a, b + 1, tables', order')
  {
    var next := Register(g, sh, tables, order, A[a], B[b], Common(nv, sh, A[a], B[b]));
    RegisterKeeps(g, sh, nv, A, B, tables, order, A[a], B[b]);
    tables', order' := next.0, next.1;
  }

  lemma RegisterKeeps(g: Geometry, sh: Shape, nv: map<FaceId, seq<Vertex>>, A: seq<FaceId>, B: seq<FaceId>,
                      tables: seq<Table>, order: seq<seq<FaceId>>, fa: FaceId, fb: FaceId)
    requires Tables(nv, sh, A, B, tables, order) && fa in A && fb in B
    ensures var r := Register(g, sh, tables, order, fa, fb, Common(nv, sh, fa, fb)); Tables(nv, sh, A, B, r.0, r.1)
  {
    var common := Common(nv, sh, fa, fb);
    if |common| >= 2 {
      CommonShape(nv, sh, fa, fb);
      AddKeepsCollected(g, sh, nv, A, tables[0], fa, common);
      AddKeepsCollected(g, sh, nv, B, tables[1], fb, common);
    }
  }

  lemma AddKeepsCollected(g: Geometry, sh: Shape, nv: map<FaceId, seq<Vertex>>, F: seq<FaceId>, t: Table, f: FaceId, c: seq<Vertex>)
    requires Collected(nv, sh, F, t) && f in F && ChainOn(nv, sh, f, c)
    ensures Collected(nv, sh, F, AddEdge(g, sh, t, f, c))
  {
  }

  /** What face_intersect hands to split, record by record: every record
      belongs to a face of its solid, is listed in the key order and lists
      exactly that face as live, its chains have at least two vertices, and
      the record over the kernel before any split satisfies the invariant
      Live of both passes (IntersectKeepsLive carries it through them). */
  ghost predicate StartsLive(sh: Shape, A: seq<FaceId>, B: seq<FaceId>, t: seq<Table>, o: seq<seq<FaceId>>,
                             overlap: seq<seq<FaceId>>)
  {
    && |t| == 2 && |o| == 2 && |overlap| == 2
    && var st := State([Initialised(t[0]), Initialised(t[1])], sh, overlap);
      forall i, f :: 0 <= i < 2 && f in t[i] ==>
        && f in o[i]
        && f in (if i == 0 then A else B)
        && Initialised(t[i])[f].faces == [f]
        && (forall c :: c in t[i][f].edges ==> |c| >= 2)
        && Live(RecordOf(st, i, f))
  }

  /** After collection and init_map, when the kernel numbers its faces
      freshly and the faces of both solids are faces of it (as the body
      iterators of lines 88 and 91 give them), every record starts the two
      passes as StartsLive says. */
  lemma IntersectStartsLive(g: Geometry, sh: Shape, nv: map<FaceId, seq<Vertex>>, A: seq<FaceId>, B: seq<FaceId>,
                            overlap: seq<seq<FaceId>>)
    requires |overlap| == 2 && Fresh(sh)
    requires (forall f :: f in A ==> f in sh.loops) && (forall f :: f in B ==> f in sh.loops)
    ensures var r := Collect(g, sh, nv, A, B, 0, 0, [map[], map[]], [[], []]);
      StartsLive(sh, A, B, r.0, r.1, overlap)
  {
    CollectShape(g, sh, nv, A, B, 0, 0, [map[], map[]], [[], []]);
    var r := Collect(g, sh, nv, A, B, 0, 0, [map[], map[]], [[], []]);
    TablesStartLive(nv, sh, A, B, r.0, r.1, overlap);
  }

  /** face_intersect keeps every record Live: the records start Live over
      the kernel before any split, and each step of both passes keeps every
      record Live over the kernel as it grows. */
  lemma IntersectKeepsLive(g: Geometry, k: Kernel, sh: Shape, nv: map<FaceId, seq<Vertex>>, A: seq<FaceId>, B: seq<FaceId>,
                           overlap: seq<seq<FaceId>>)
    requires |overlap| == 2 && Fresh(sh)
    requires (forall f :: f in A ==> f in sh.loops) && (forall f :: f in B ==> f in sh.loops)
    ensures Intersect(g, k, sh, nv, A, B, overlap).Ok? ==> AllLive(Intersect(g, k, sh, nv, A, B, overlap).value)
  {
    CollectShape(g, sh, nv, A, B, 0, 0, [map[], map[]], [[], []]);
    IntersectStartsLive(g, sh, nv, A, B, overlap);
    var (tables, order) := Collect(g, sh, nv, A, B, 0, 0, [map[], map[]], [[], []]);
    StartsAllLive(sh, A, B, tables, order, overlap);
    SplitAllKeepsLive(g, k, order, State([Initialised(tables[0]), Initialised(tables[1])], sh, overlap));
  }

  lemma StartsAllLive(sh: Shape, A: seq<FaceId>, B: seq<FaceId>, t: seq<Table>, o: seq<seq<FaceId>>,
                      overlap: seq<seq<FaceId>>)
    requires StartsLive(sh, A, B, t, o, overlap)
    ensures AllLive(State([Initialised(t[0]), Initialised(t[1])], sh, overlap))
  {
    var st := State([Initialised(t[0]), Initialised(t[1])], sh, overlap);
    forall i, f | 0 <= i < 2 && f in st.tables[i]
      ensures Live(RecordOf(st, i, f))
    {
      assert f in t[i];
    }
  }

  /** Collected tables, once initialised, start both passes from Live
      records. */
  lemma TablesStartLive(nv: map<FaceId, seq<Vertex>>, sh: Shape, A: seq<FaceId>, B: seq<FaceId>,
                        t: seq<Table>, o: seq<seq<FaceId>>, overlap: seq<seq<FaceId>>)
    requires Tables(nv, sh, A, B, t, o) && |overlap| == 2 && Fresh(sh)
    requires (forall f :: f in A ==> f in sh.loops) && (forall f :: f in B ==> f in sh.loops)
    ensures StartsLive(sh, A, B, t, o, overlap)
  {
    var st := State([Initialised(t[0]), Initialised(t[1])], sh, overlap);
    forall i, f | 0 <= i < 2 && f in t[i]
      ensures f in o[i]
      ensures f in (if i == 0 then A else B)
      ensures Initialised(t[i])[f].faces == [f]
      ensures forall c :: c in t[i][f].edges ==> |c| >= 2
      ensures Live(RecordOf(st, i, f))
    {
      assert Ordered(t[i], o[i]);
      assert RecordOf(st, i, f) == Record(sh, Initialised(t[i])[f].faces, t[i][f].edges, overlap[i]);
      RecordStartsLive(nv, sh, if i == 0 then A else B, t[i], f, overlap[i]);
    }
  }

  /** One collected record after init_map. */
  lemma RecordStartsLive(nv: map<FaceId, seq<Vertex>>, sh: Shape, F: seq<FaceId>, t: Table, f: FaceId, ov: seq<FaceId>)
    requires Collected(nv, sh, F, t) && f in t
    requires Fresh(sh) && forall f :: f in F ==> f in sh.loops
    ensures f in F && Initialised(t)[f].faces == [f] && (forall c :: c in t[f].edges ==> |c| >= 2)
    ensures Live(Record(sh, Initialised(t)[f].faces, t[f].edges, ov))
  {
    forall c | c in t[f].edges
      ensures |c| >= 2
    {
      assert ChainOn(nv, sh, f, c);
    }
    assert Initialised(t)[f].faces == [f];
  }

  // ---------------------------------------------------------------------------
  // The imperative code

  /** face_vertices (lines 18-27): the set built by inserting the new
      vertices, then the boundary vertices. */
  method FaceVertexSet(newVerts: seq<Vertex>, loop: seq<Vertex>) returns (s: seq<Vertex>)
    ensures s == SortedSet(newVerts + loop)
  {
    var xs := newVerts + loop;
    s := [];
    for m := 0 to |xs|
      invariant s == SortedSet(xs[..m])
    {
      assert xs[..m + 1][..m] == xs[..m];
      s := Insert(s, xs[m]);
    }
    assert xs[..|xs|] == xs;
  }

  /** std::set_intersection (lines 94-98): the merge of two increasing
      sequences keeps exactly the elements of the first that are in the
      second. */
  method SetIntersection(a: seq<Vertex>, b: seq<Vertex>) returns (r: seq<Vertex>)
    requires Increasing(a) && Increasing(b)
    ensures r == Filter(a, b)
  {
    r := [];
    var i, j := 0, 0;
    while i < |a| && j < |b|
      invariant 0 <= i <= |a| && 0 <= j <= |b|
      invariant r == Filter(a[..i], b)
      invariant forall p :: 0 <= p < i && j < |b| ==> a[p] < b[j]
      invariant forall q :: 0 <= q < j && i < |a| ==> b[q] < a[i]
      decreases |a| - i + |b| - j
    {
      assert a[..i + 1][..i] == a[..i];
      if a[i] < b[j] {
        assert a[i] !in b by {
          forall q | 0 <= q < |b|
            ensures b[q] != a[i]
          {
            if q >= j && q != j {
              assert b[j] < b[q];
            }
          }
        }
        i := i + 1;
      } else if b[j] < a[i] {
        j := j + 1;
      } else {
        r := r + [a[i]];
        i, j := i + 1, j + 1;
      }
    }
    forall p | i <= p < |a|
      ensures a[p] !in b
    {
      forall q | 0 <= q < |b|
        ensures b[q] != a[p]
      {
        if p != i {
          assert a[i] < a[p];
        }
      }
    }
    FilterTail(a, b, i);
  }

  /** Lines 99-103: a pair sharing at least two vertices registers them on
      both faces. */
  method RegisterPair(g: Geometry, topo: Topology, m: FaceEdgeMap, fa: FaceId, fb: FaceId, common: seq<Vertex>)
    requires m.Valid()
    modifies m
    ensures m.Valid()
    ensures (m.tables, m.order) == Register(g, topo.Current(), old(m.tables), old(m.order), fa, fb, common)
  {
    if |common| >= 2 {
      var okA := m.AddFaceEdge(g, topo, fa, common, false);
      var okB := m.AddFaceEdge(g, topo, fb, common, true);
      assert m.tables == [m.tables[0], m.tables[1]];
      assert m.order == [m.order[0], m.order[1]];
    }
  }

  /** The inner loop of lines 89-103 for face a of the first solid: its
      vertex set against that of every face of the second. */
  method RegisterFace(g: Geometry, topo: Topology, m: FaceEdgeMap, nv: map<FaceId, seq<Vertex>>,
                      A: seq<FaceId>, B: seq<FaceId>, a: nat)
    requires a < |A| && m.Valid()
    modifies m
    ensures m.Valid()
    ensures Collect(g, topo.Current(), nv, A, B, a + 1, 0, m.tables, m.order)
         == Collect(g, topo.Current(), nv, A, B, a, 0, old(m.tables), old(m.order))
  {
    var vertsA := FaceVertexSet(NewVerts(nv, A[a]), topo.Loop(A[a]));
    for b := 0 to |B|
      invariant m.Valid()
      invariant Collect(g, topo.Current(), nv, A, B, a, b, m.tables, m.order)
             == Collect(g, topo.Current(), nv, A, B, a, 0, old(m.tables), old(m.order))
    {
      var vertsB := FaceVertexSet(NewVerts(nv, B[b]), topo.Loop(B[b]));
      var common := SetIntersection(vertsA, vertsB);
      RegisterPair(g, topo, m, A[a], B[b], common);
    }
  }

  /** The two loops of lines 89-103: a new face-edge map holding the chains
      of every pair of faces. */
  method CollectChains(g: Geometry, topo: Topology, nv: map<FaceId, seq<Vertex>>, A: seq<FaceId>, B: seq<FaceId>)
    returns (m: FaceEdgeMap)
    ensures fresh(m) && m.Valid()
    ensures (m.tables, m.order) == Collect(g, topo.Current(), nv, A, B, 0, 0, [map[], map[]], [[], []])
  {
    m := new FaceEdgeMap();
    for a := 0 to |A|
      invariant m.Valid() && fresh(m)
      invariant Collect(g, topo.Current(), nv, A, B, a, 0, m.tables, m.order)
             == Collect(g, topo.Current(), nv, A, B, 0, 0, [map[], map[]], [[], []])
    {
      RegisterFace(g, topo, m, nv, A, B, a);
    }
    assert (m.tables, m.order) == Collect(g, topo.Current(), nv, A, B, |A|, 0, m.tables, m.order);
  }

  /** FaceVersus::face_intersect (lines 83-110): `nv` is f_vert_info_ (the
      new vertices of each face), `A` and `B` the faces of the two solids,
      and `overlap` the overlap lists (overlap_faces_), which it returns
      updated; the kernel ends holding the split faces. */
  method FaceIntersect(g: Geometry, topo: Topology, nv: map<FaceId, seq<Vertex>>, A: seq<FaceId>, B: seq<FaceId>,
                       overlap: seq<seq<FaceId>>) returns (res: Result<seq<seq<FaceId>>>)
    requires |overlap| == 2
    modifies topo
    ensures var spec := Intersect(g, topo.kernel, old(topo.Current()), nv, A, B, overlap);
      && (spec.Fail? ==> res == Fail(spec.error))
      && (spec.Ok? ==> res == Ok(spec.value.overlap) && topo.Current() == spec.value.sh)
  {
    var m := CollectChains(g, topo, nv, A, B);
    m.InitMap();
    res := m.Split(g, topo, overlap);
  }
}
