// FaceEdgeMap (face_face.cc:29-261, 474-557): the two tables of face
// records, one per solid, keyed by face. A record holds the face's canonical
// normal, the faces it has been split into so far and the chains of common
// vertices still waiting to split it. `split` first cuts faces along chains
// that overlap their boundary, then repeatedly cuts them along paths of
// two-vertex chains through their interior.
module FaceEdgeMap {
  import opened Base
  import opened Topology
  import opened Overlap
  import opened EdgeChain
  import opened ChainSplit
  import opened Ambiguity

  /** The record of one face (FaceData): its normal, the live faces it has
      been split into (NewFaces) and its pending chains (NewEdges). */
  datatype FaceData = FaceData(normal: Vec, faces: seq<FaceId>, edges: seq<seq<Vertex>>)

  type Table = map<FaceId, FaceData>

  /** Everything a split reads and changes: both tables, the topology, and
      the two lists of overlap faces (OverlapFces). */
  datatype State = State(tables: seq<Table>, sh: Shape, overlap: seq<seq<FaceId>>)

  /** The part of the state the processing of one record reads and changes. */
  datatype Record = Record(sh: Shape, faces: seq<FaceId>, edges: seq<seq<Vertex>>, overlap: seq<FaceId>)

  // ---------------------------------------------------------------------------
  // Keys in map order

  ghost predicate Increasing(ks: seq<FaceId>)
  {
    forall i, j :: 0 <= i < j < |ks| ==> ks[i] < ks[j]
  }

  /** The keys of a std::map after an emplace: f joins them in its place in
      the order, unless it is already there. */
  function Insert(ks: seq<FaceId>, f: FaceId): (r: seq<FaceId>)
    requires Increasing(ks)
    ensures Increasing(r)
    ensures forall x :: x in r <==> x in ks || x == f
    ensures f in ks ==> r == ks
  {
    if ks == [] then [f]
    else if f == ks[0] then ks
    else if f < ks[0] then
      IncreasingCons(f, ks);
      [f] + ks
    else
      var r' := Insert(ks[1..], f);
      IncreasingCons(ks[0], r');
      [ks[0]] + r'
  }

  lemma IncreasingCons(x: FaceId, ks: seq<FaceId>)
    requires Increasing(ks) && (ks != [] ==> x < ks[0])
    ensures Increasing([x] + ks)
  {
  }

  /** The keys are the table's keys, in increasing order. */
  ghost predicate Ordered(t: Table, ks: seq<FaceId>)
  {
    Increasing(ks) && forall f :: f in t <==> f in ks
  }

  // ---------------------------------------------------------------------------
  // add_face_edge and init_map

  /** add_face_edge on one table (lines 35-66): the chain joins the face's
      pending chains; a face without a record gets one whose normal is the
      canonical normal of its boundary and whose face list is empty. */
  function AddEdge(g: Geometry, sh: Shape, t: Table, face: FaceId, chain: seq<Vertex>): (r: Table)
    ensures r.Keys == t.Keys + {face}
    ensures face in t ==> r[face] == t[face].(edges := t[face].edges + [chain])
    ensures face !in t ==> r[face] == FaceData(CanonicalNormal(g, LoopOf(sh, face)), [], [chain])
    ensures forall f :: f in t && f != face ==> r[f] == t[f]
  {
    if face in t then t[face := t[face].(edges := t[face].edges + [chain])]
    else t[face := FaceData(CanonicalNormal(g, LoopOf(sh, face)), [], [chain])]
  }

  /** init_map on one table (lines 114-121): every face joins its own list
      of live faces. */
  function Initialised(t: Table): (r: Table)
    ensures r.Keys == t.Keys
    ensures forall f :: f in t ==> r[f] == t[f].(faces := t[f].faces + [f])
  {
    map f | f in t :: t[f].(faces := t[f].faces + [f])
  }

  /** Registering chains never touches the live faces, so after init_map
      every record lists exactly its own face. */
  lemma InitialisedLive(t: Table)
    requires forall f :: f in t ==> t[f].faces == []
    ensures forall f :: f in Initialised(t) ==> Initialised(t)[f].faces == [f]
  {
  }

  // ---------------------------------------------------------------------------
  // split_overlaps_on_boundary (lines 123-260)

  /** The overlap decision for every live face (lines 144-196); the
      decisions are pure, so taking them all first changes nothing. */
  function Plans(k: Kernel, sh: Shape, faces: seq<FaceId>, chain: seq<Vertex>): (ps: seq<Plan>)
    ensures |ps| == |faces|
  {
    seq(|faces|, m requires 0 <= m < |faces| => OverlapPlan(LoopOf(sh, faces[m]), chain, k))
  }

  /** The first live face, from position j on, that the chain overlaps (the
      face loop of lines 141-256: faces with no common vertex are passed). */
  function FirstPlan(plans: seq<Plan>, j: nat): (r: Option<(nat, Plan)>)
    requires j <= |plans|
    ensures r.Some? ==> j <= r.value.0 < |plans|
    decreases |plans| - j
  {
    if j == |plans| then None
    else if plans[j].Skip? then FirstPlan(plans, j + 1)
    else Some((j, plans[j]))
  }

  /** Acting on the decision for live face j (lines 197-253): a face whose
      boundary is all common goes to the overlap list; a cut face is split,
      its first child goes to the overlap list and its children replace it
      at the end of the live faces. */
  function ApplyPlan(k: Kernel, r: Record, j: nat, plan: Plan): (res: Result<Record>)
    requires j < |r.faces|
    ensures res.Ok? ==> res.value.edges == r.edges
    ensures res.Ok? ==> |r.overlap| <= |res.value.overlap| <= |r.overlap| + 1 && res.value.overlap[..|r.overlap|] == r.overlap
  {
    match plan
    case Skip => Ok(r)
    case Whole => Ok(r.(overlap := r.overlap + [r.faces[j]]))
    case Abort(e) => Fail(e)
    case Cut(chains) =>
      var (sh', children) := SplitShape(k, r.sh, r.faces[j], chains);
      if children == [] then Fail(DegenerateSplit)
      else Ok(r.(sh := sh', overlap := r.overlap + [children[0]], faces := r.faces[..j] + r.faces[j + 1..] + children))
  }

  /** One turn of the chain loop of lines 133-257 at pending chain e: a
      chain of at most two vertices is passed; a longer chain is applied to
      the first live face it overlaps and then erased, and kept when it
      overlaps none. The result is the record and the next chain position. */
  function OverlapStep(k: Kernel, r: Record, e: nat): (res: Result<(Record, nat)>)
    requires e < |r.edges|
    ensures res.Ok? ==> res.value.1 <= |res.value.0.edges| && |res.value.0.edges| - res.value.1 < |r.edges| - e
  {
    if |r.edges[e]| <= 2 then Ok((r, e + 1))
    else
      match FirstPlan(Plans(k, r.sh, r.faces, r.edges[e]), 0)
      case None => Ok((r, e + 1))
      case Some((j, plan)) =>
        match ApplyPlan(k, r, j, plan)
        case Fail(err) => Fail(err)
        case Ok(r') => Ok((r'.(edges := r.edges[..e] + r.edges[e + 1..]), e))
  }

  /** The chain loop of lines 133-257 for one record, from pending chain e
      on. */
  function OverlapRecord(k: Kernel, r: Record, e: nat): Result<Record>
    requires e <= |r.edges|
    decreases |r.edges| - e
  {
    if e == |r.edges| then Ok(r)
    else
      match OverlapStep(k, r, e)
      case Fail(err) => Fail(err)
      case Ok((r', e')) => OverlapRecord(k, r', e')
  }

  /** The record of face f in table i as the processing of one record sees it. */
  function RecordOf(st: State, i: nat, f: FaceId): Record
    requires i < |st.tables| && i < |st.overlap| && f in st.tables[i]
  {
    Record(st.sh, st.tables[i][f].faces, st.tables[i][f].edges, st.overlap[i])
  }

  /** The state with the processed record of face f in table i written back. */
  function StoreRecord(st: State, i: nat, f: FaceId, r: Record): State
    requires i < |st.tables| && i < |st.overlap| && f in st.tables[i]
  {
    var d := st.tables[i][f];
    State(st.tables[i := st.tables[i][f := d.(faces := r.faces, edges := r.edges)]], r.sh, st.overlap[i := r.overlap])
  }

  ghost predicate Shaped(order: seq<seq<FaceId>>, st: State)
  {
    |order| == 2 && |st.tables| == 2 && |st.overlap| == 2
  }

  /** The table loops of lines 126-129 from record n of table i on. */
  function OverlapFrom(k: Kernel, order: seq<seq<FaceId>>, st: State, i: nat, n: nat): Result<State>
    requires Shaped(order, st) && i <= 2 && (i < 2 ==> n <= |order[i]|)
    decreases 2 - i, if i < 2 then |order[i]| - n else 0
  {
    if i == 2 then Ok(st)
    else if n == |order[i]| then OverlapFrom(k, order, st, i + 1, 0)
    else
      var f := order[i][n];
      if f !in st.tables[i] then OverlapFrom(k, order, st, i, n + 1)
      else
        match OverlapRecord(k, RecordOf(st, i, f), 0)
        case Fail(err) => Fail(err)
        case Ok(r) => OverlapFrom(k, order, StoreRecord(st, i, f, r), i, n + 1)
  }

  // ---------------------------------------------------------------------------
  // split_with_chains (lines 474-551)

  /** Where a pass found a path: the live face (its position in the list),
      the position in that face's loop of the vertex the path leaves from,
      and the path. */
  datatype Hit = Hit(face: nat, first: nat, found: Found)

  /** The face and vertex loops of lines 484-495 from live face j and
      vertex position p on: the first path find_edge_chain accepts. The
      pending chains it turned stay turned, found or not. */
  function SearchFrom(g: Geometry, sh: Shape, faces: seq<FaceId>, edges: seq<seq<Vertex>>, j: nat, p: nat)
    : (r: (seq<seq<Vertex>>, Option<Hit>))
    requires j <= |faces|
    ensures |r.0| == |edges|
    ensures r.1.Some? ==> r.1.value.face < |faces| && r.1.value.first < |LoopOf(sh, faces[r.1.value.face])|
    decreases |faces| - j, if j < |faces| then |LoopOf(sh, faces[j])| - p else 0
  {
    if j == |faces| then (edges, None)
    else
      var fv := LoopOf(sh, faces[j]);
      if p >= |fv| then SearchFrom(g, sh, faces, edges, j + 1, 0)
      else
        var w := FindFrom(g, fv[p], edges, fv, 0);
        match w.found
        case Some(f) => (w.edges, Some(Hit(j, p, f)))
        case None => SearchFrom(g, sh, faces, w.edges, j, p + 1)
  }

  /** The pending chains whose positions, from q on, are not on the path
      (the erase loop of lines 529-531). */
  function Kept(edges: seq<seq<Vertex>>, ch: seq<nat>, q: nat): seq<seq<Vertex>>
    requires q <= |edges|
    decreases |edges| - q
  {
    if q == |edges| then [] else (if q in ch then [] else [edges[q]]) + Kept(edges, ch, q + 1)
  }

  function Without(edges: seq<seq<Vertex>>, ch: seq<nat>): seq<seq<Vertex>>
  {
    Kept(edges, ch, 0)
  }

  /** The replacement loop of lines 540-547, from position j down: every
      live face equal to `face` becomes the first child, and the other
      children are appended each time. */
  function ReplaceFrom(faces: seq<FaceId>, face: FaceId, children: seq<FaceId>, j: nat): seq<FaceId>
    requires children != [] && j <= |faces|
    decreases j
  {
    if j == 0 then faces
    else if faces[j - 1] != face then ReplaceFrom(faces, face, children, j - 1)
    else ReplaceFrom(faces[j - 1 := children[0]] + children[1..], face, children, j - 1)
  }

  /** The chains of a path: distinct positions of pending chains. */
  ghost predicate PathIn(edges: seq<seq<Vertex>>, ch: seq<nat>)
  {
    && (forall i :: 0 <= i < |ch| ==> ch[i] < |edges|)
    && (forall i, j :: 0 <= i < j < |ch| ==> ch[i] != ch[j])
  }

  /** The end of a pass that found a path across live face q (lines 519-531
      and 538-547): the face is split along the resolved chains, the path's
      chains are erased and the children take the face's place. */
  function SplitFace(k: Kernel, r: Record, q: nat, resolved: seq<seq<Vertex>>, edges': seq<seq<Vertex>>, ch: seq<nat>)
    : (res: Result<(Record, bool)>)
    requires q < |r.faces| && PathIn(edges', ch)
    ensures res.Ok? ==> res.value.1 && |res.value.0.edges| == |edges'| - |ch|
  {
    var (sh', children) := SplitShape(k, r.sh, r.faces[q], resolved);
    if children == [] then Fail(DegenerateSplit)
    else
      WithoutLength(edges', ch);
      Ok((Record(sh', ReplaceFrom(r.faces, r.faces[q], children, |r.faces|), Without(edges', ch), r.overlap), true))
  }

  /** One pass of the worklist of lines 480-548, corrected: it stops at the
      first path found, splits the face along it (after resolving the
      ambiguities of lines 517-518), erases the path's chains and puts the
      children in the face's place. The flag says whether a split was made;
      when none is, the pass ends the worklist. */
  function ChainPass(g: Geometry, k: Kernel, n: Vec, r: Record): (res: Result<(Record, bool)>)
    ensures res.Ok? && res.value.1 ==> |res.value.0.edges| < |r.edges|
  {
    var (edges', hit) := SearchFrom(g, r.sh, r.faces, r.edges, 0, 0);
    match hit
    case None => Ok((r.(edges := edges'), false))
    case Some(h) =>
      var fv := LoopOf(r.sh, r.faces[h.face]);
      var ch := h.found.chain;
      SearchShape(g, r.sh, r.faces, r.edges, 0, 0);
      var chains := SplitChainsOf(edges', ch, fv, h.first, h.found.last);
      match Resolve(g, n, chains, edges'[ch[0]][0], edges'[ch[|ch| - 1]][1])
      case Fail(e) => Fail(e)
      case Ok(resolved) => SplitFace(k, r, h.face, resolved, edges', ch)
  }

  /** The worklist of lines 480-548 for one record: passes until one finds
      nothing to split. */
  function ChainsRecord(g: Geometry, k: Kernel, n: Vec, r: Record): Result<Record>
    decreases |r.edges|
  {
    match ChainPass(g, k, n, r)
    case Fail(e) => Fail(e)
    case Ok((r', split)) => if split then ChainsRecord(g, k, n, r') else Ok(r')
  }

  /** The table loops of lines 476-479 from record n of table i on. */
  function ChainsFrom(g: Geometry, k: Kernel, order: seq<seq<FaceId>>, st: State, i: nat, n: nat): Result<State>
    requires Shaped(order, st) && i <= 2 && (i < 2 ==> n <= |order[i]|)
    decreases 2 - i, if i < 2 then |order[i]| - n else 0
  {
    if i == 2 then Ok(st)
    else if n == |order[i]| then ChainsFrom(g, k, order, st, i + 1, 0)
    else
      var f := order[i][n];
      if f !in st.tables[i] then ChainsFrom(g, k, order, st, i, n + 1)
      else
        match ChainsRecord(g, k, st.tables[i][f].normal, RecordOf(st, i, f))
        case Fail(err) => Fail(err)
        case Ok(r) => ChainsFrom(g, k, order, StoreRecord(st, i, f, r), i, n + 1)
  }

  /** The end of a table: the overlap pass goes on with the next table. */
  lemma OverlapNextTable(k: Kernel, order: seq<seq<FaceId>>, st: State, i: nat)
    requires Shaped(order, st) && i < 2
    ensures OverlapFrom(k, order, st, i, |order[i]|) == OverlapFrom(k, order, st, i + 1, 0)
  {
  }

  /** The end of a table: the chain pass goes on with the next table. */
  lemma ChainsNextTable(g: Geometry, k: Kernel, order: seq<seq<FaceId>>, st: State, i: nat)
    requires Shaped(order, st) && i < 2
    ensures ChainsFrom(g, k, order, st, i, |order[i]|) == ChainsFrom(g, k, order, st, i + 1, 0)
  {
  }

  /** FaceEdgeMap::split (lines 553-557): the overlap pass, then the chain
      worklist. */
  function SplitAll(g: Geometry, k: Kernel, order: seq<seq<FaceId>>, st: State): Result<State>
    requires Shaped(order, st)
  {
    match OverlapFrom(k, order, st, 0, 0)
    case Fail(e) => Fail(e)
    case Ok(st') =>
      OverlapKeepsShape(k, order, st, 0, 0);
      ChainsFrom(g, k, order, st', 0, 0)
  }

  // ---------------------------------------------------------------------------
  // Lemmas

  /** What the search hands on: the chains are only turned, and a hit is a
      path that find_edge_chain accepted from a vertex of that face. */
  lemma {:induction false} SearchShape(g: Geometry, sh: Shape, faces: seq<FaceId>, edges: seq<seq<Vertex>>, j: nat, p: nat)
    requires j <= |faces|
    ensures var (edges', hit) := SearchFrom(g, sh, faces, edges, j, p);
      && Reoriented(edges, edges')
      && (hit.Some? ==>
            var fv := LoopOf(sh, faces[hit.value.face]);
            && hit.value.face < |faces| && hit.value.first < |fv|
            && FoundPath(g, fv[hit.value.first], edges', fv, hit.value.found))
    decreases |faces| - j, if j < |faces| then |LoopOf(sh, faces[j])| - p else 0
  {
    if j < |faces| {
      var fv := LoopOf(sh, faces[j]);
      if p >= |fv| {
        SearchShape(g, sh, faces, edges, j + 1, 0);
      } else {
        FindShape(g, fv[p], edges, fv, 0);
        var w := FindFrom(g, fv[p], edges, fv, 0);
        if w.found.None? {
          SearchShape(g, sh, faces, w.edges, j, p + 1);
          ReorientedTrans(edges, w.edges, SearchFrom(g, sh, faces, w.edges, j, p + 1).0);
        }
      }
    }
  }

  /** Erasing the chains of a path (distinct positions) removes exactly as
      many chains as the path has. */
  lemma WithoutLength(edges: seq<seq<Vertex>>, ch: seq<nat>)
    requires forall i :: 0 <= i < |ch| ==> ch[i] < |edges|
    requires forall i, j :: 0 <= i < j < |ch| ==> ch[i] != ch[j]
    ensures |Without(edges, ch)| == |edges| - |ch|
  {
    KeptLength(edges, ch, 0);
    DistinctCard(ch);
    assert (set x: nat | x in ch && 0 <= x < |edges|) == (set x: nat | x in ch);
  }

  lemma {:induction false} KeptLength(edges: seq<seq<Vertex>>, ch: seq<nat>, q: nat)
    requires q <= |edges|
    ensures |Kept(edges, ch, q)| == |edges| - q - |(set x: nat | x in ch && q <= x < |edges|)|
    decreases |edges| - q
  {
    if q < |edges| {
      KeptLength(edges, ch, q + 1);
      var later := set x: nat | x in ch && q + 1 <= x < |edges|;
      if q in ch {
        assert (set x: nat | x in ch && q <= x < |edges|) == later + {q};
      } else {
        assert (set x: nat | x in ch && q <= x < |edges|) == later;
      }
    } else {
      assert (set x: nat | x in ch && q <= x < |edges|) == {};
    }
  }

  /** A sequence without repetitions has as many elements as its set. */
  lemma {:induction false} DistinctCard(ch: seq<nat>)
    requires forall i, j :: 0 <= i < j < |ch| ==> ch[i] != ch[j]
    ensures |(set x: nat | x in ch)| == |ch|
    decreases |ch|
  {
    if ch != [] {
      var m := |ch| - 1;
      DistinctCard(ch[..m]);
      var before := set x: nat | x in ch[..m];
      assert ch[m] !in before;
      assert (set x: nat | x in ch) == before + {ch[m]};
      assert |before| == m;
      assert |(set x: nat | x in ch)| == m + 1;
    } else {
      assert (set x: nat | x in ch) == {};
    }
  }

  lemma OverlapKeepsShape(k: Kernel, order: seq<seq<FaceId>>, st: State, i: nat, n: nat)
    requires Shaped(order, st) && i <= 2 && (i < 2 ==> n <= |order[i]|)
    ensures OverlapFrom(k, order, st, i, n).Ok? ==> Shaped(order, OverlapFrom(k, order, st, i, n).value)
    decreases 2 - i, if i < 2 then |order[i]| - n else 0
  {
    if i < 2 {
      if n == |order[i]| {
        OverlapKeepsShape(k, order, st, i + 1, 0);
      } else if order[i][n] in st.tables[i] {
        var f := order[i][n];
        var res := OverlapRecord(k, RecordOf(st, i, f), 0);
        if res.Ok? {
          OverlapKeepsShape(k, order, StoreRecord(st, i, f, res.value), i, n + 1);
        }
      } else {
        OverlapKeepsShape(k, order, st, i, n + 1);
      }
    }
  }

  // ---------------------------------------------------------------------------
  // The overlap pass: decisions and what a record keeps

  /** The face the overlap loop acts on is the first live face whose plan is
      not a skip, and its plan is the one OverlapPlan gives; no face is acted
      on when every plan is a skip. */
  lemma {:induction false} FirstPlanShape(plans: seq<Plan>, j: nat)
    requires j <= |plans|
    ensures match FirstPlan(plans, j)
      case None => forall m :: j <= m < |plans| ==> plans[m].Skip?
      case Some((q, plan)) =>
        && j <= q < |plans| && plan == plans[q] && !plan.Skip?
        && forall m :: j <= m < q ==> plans[m].Skip?
    decreases |plans| - j
  {
    if j < |plans| && plans[j].Skip? {
      FirstPlanShape(plans, j + 1);
    }
  }

  /** The overlap loop of one record only erases pending chains, and never
      one of at most two vertices: those are left for the chain worklist. */
  lemma {:induction false} OverlapRecordEdges(k: Kernel, r: Record, e: nat)
    requires e <= |r.edges|
    ensures var res := OverlapRecord(k, r, e);
      res.Ok? ==>
        && e <= |res.value.edges| && res.value.edges[..e] == r.edges[..e]
        && multiset(res.value.edges) <= multiset(r.edges)
        && (forall x :: x in r.edges && |x| <= 2 ==> x in res.value.edges)
    decreases |r.edges| - e
  {
    if e < |r.edges| {
      OverlapStepEdges(k, r, e);
      var st := OverlapStep(k, r, e);
      if st.Ok? {
        var (r', e') := st.value;
        OverlapRecordEdges(k, r', e');
        var res := OverlapRecord(k, r', e');
        if res.Ok? {
          var out := res.value.edges;
          assert out[..e] == out[..e'][..e] == r'.edges[..e'][..e] == r'.edges[..e];
          assert multiset(out) <= multiset(r'.edges) <= multiset(r.edges);
        }
      }
    }
  }

  lemma OverlapStepEdges(k: Kernel, r: Record, e: nat)
    requires e < |r.edges|
    ensures var res := OverlapStep(k, r, e);
      res.Ok? ==>
        var (r', e') := res.value;
        && e <= e' && e' <= |r'.edges| && r'.edges[..e] == r.edges[..e]
        && multiset(r'.edges) <= multiset(r.edges)
        && (forall x :: x in r.edges && |x| <= 2 ==> x in r'.edges)
  {
    var res := OverlapStep(k, r, e);
    if res.Ok? {
      var fp := FirstPlan(Plans(k, r.sh, r.faces, r.edges[e]), 0);
      if |r.edges[e]| > 2 && fp.Some? {
        assert ApplyPlan(k, r, fp.value.0, fp.value.1).Ok?;
        assert res.value.0.edges == r.edges[..e] + r.edges[e + 1..] && res.value.1 == e;
        EraseKeeps(r.edges, e);
      } else {
        assert res.value == (r, e + 1);
      }
    }
  }

  /** Erasing one long chain keeps the chains before it, drops no other
      chain and keeps every chain of at most two vertices. */
  lemma EraseKeeps(edges: seq<seq<Vertex>>, e: nat)
    requires e < |edges| && |edges[e]| > 2
    ensures var erased := edges[..e] + edges[e + 1..];
      && erased[..e] == edges[..e]
      && multiset(erased) <= multiset(edges)
      && (forall x :: x in edges && |x| <= 2 ==> x in erased)
  {
    assert edges == edges[..e] + [edges[e]] + edges[e + 1..];
  }

  /** The overlap loop of one record only appends to the overlap list, at
      most one face per chain. */
  lemma {:induction false} OverlapRecordAppends(k: Kernel, r: Record, e: nat)
    requires e <= |r.edges|
    ensures var res := OverlapRecord(k, r, e);
      res.Ok? ==>
        && |r.overlap| <= |res.value.overlap| <= |r.overlap| + |r.edges| - e
        && res.value.overlap[..|r.overlap|] == r.overlap
    decreases |r.edges| - e
  {
    if e < |r.edges| {
      var st := OverlapStep(k, r, e);
      if st.Ok? {
        var (r', e') := st.value;
        OverlapRecordAppends(k, r', e');
        var res := OverlapRecord(k, r', e');
        if res.Ok? {
          assert res.value.overlap[..|r.overlap|] == res.value.overlap[..|r'.overlap|][..|r.overlap|];
        }
      }
    } else {
      assert r.overlap[..|r.overlap|] == r.overlap;
    }
  }

  // ---------------------------------------------------------------------------
  // The live faces of a record

  ghost predicate Distinct(s: seq<FaceId>)
  {
    forall a, b :: 0 <= a < b < |s| ==> s[a] != s[b]
  }

  /** The invariant both passes keep on a record: the topology numbers its
      faces freshly, and the live faces are distinct faces of it. */
  ghost predicate Live(r: Record)
  {
    && Fresh(r.sh)
    && (forall f :: f in r.faces ==> f in r.sh.loops)
    && Distinct(r.faces)
  }

  /** What a split hands back: distinct fresh faces, all in the new
      topology, which keeps every old face. */
  lemma ChildrenFresh(k: Kernel, sh: Shape, face: FaceId, chains: seq<seq<Vertex>>)
    requires Fresh(sh)
    ensures var (sh', children) := SplitShape(k, sh, face, chains);
      && Fresh(sh')
      && Distinct(children)
      && (forall m :: 0 <= m < |children| ==> children[m] in sh'.loops && children[m] >= sh.nextFace)
      && (forall f :: f in sh.loops ==> f in sh'.loops)
  {
    var pieces := k.split(face, LoopOf(sh, face), chains);
    SplitKeepsFaces(k, sh, face, chains);
    AddFacesShape(sh, pieces);
  }

  lemma DistinctJoin(a: seq<FaceId>, b: seq<FaceId>)
    requires Distinct(a) && Distinct(b) && forall x :: x in a ==> x !in b
    ensures Distinct(a + b)
  {
    forall i, j | 0 <= i < j < |a + b|
      ensures (a + b)[i] != (a + b)[j]
    {
      if j >= |a| && i < |a| {
        assert (a + b)[i] in a && (a + b)[j] in b;
      }
    }
  }

  lemma DistinctDrop(a: seq<FaceId>, j: nat)
    requires Distinct(a) && j < |a|
    ensures Distinct(a[..j] + a[j + 1..]) && forall x :: x in a[..j] + a[j + 1..] ==> x in a
  {
    var d := a[..j] + a[j + 1..];
    forall i, m | 0 <= i < m < |d|
      ensures d[i] != d[m]
    {
      var i' := if i < j then i else i + 1;
      var m' := if m < j then m else m + 1;
      assert d[i] == a[i'] && d[m] == a[m'];
    }
  }

  /** Acting on an overlap decision keeps the live faces distinct faces of
      the topology. */
  lemma ApplyPlanKeepsLive(k: Kernel, r: Record, j: nat, plan: Plan)
    requires Live(r) && j < |r.faces|
    ensures ApplyPlan(k, r, j, plan).Ok? ==> Live(ApplyPlan(k, r, j, plan).value)
  {
    if plan.Cut? {
      var (sh', children) := SplitShape(k, r.sh, r.faces[j], plan.chains);
      if children != [] {
        ChildrenFresh(k, r.sh, r.faces[j], plan.chains);
        DistinctDrop(r.faces, j);
        var rest := r.faces[..j] + r.faces[j + 1..];
        forall x | x in rest
          ensures x !in children
        {
          assert x in r.sh.loops;
        }
        DistinctJoin(rest, children);
      }
    }
  }

  lemma {:induction false} OverlapRecordKeepsLive(k: Kernel, r: Record, e: nat)
    requires Live(r) && e <= |r.edges|
    ensures OverlapRecord(k, r, e).Ok? ==> Live(OverlapRecord(k, r, e).value)
    decreases |r.edges| - e
  {
    if e < |r.edges| {
      if |r.edges[e]| > 2 {
        var fp := FirstPlan(Plans(k, r.sh, r.faces, r.edges[e]), 0);
        if fp.Some? {
          ApplyPlanKeepsLive(k, r, fp.value.0, fp.value.1);
        }
      }
      var st := OverlapStep(k, r, e);
      if st.Ok? {
        OverlapRecordKeepsLive(k, st.value.0, st.value.1);
      }
    }
  }

  // ---------------------------------------------------------------------------
  // The chain worklist: what a pass replaces

  lemma {:induction false} ReplaceSkip(faces: seq<FaceId>, face: FaceId, children: seq<FaceId>, j: nat, q: nat)
    requires children != [] && q <= j <= |faces|
    requires forall m :: q <= m < j ==> faces[m] != face
    ensures ReplaceFrom(faces, face, children, j) == ReplaceFrom(faces, face, children, q)
    decreases j
  {
    if j > q {
      ReplaceSkip(faces, face, children, j - 1, q);
    }
  }

  /** When the split face is live exactly once, the replacement loop puts
      the first child in its place and appends the others. */
  lemma ReplaceOnce(faces: seq<FaceId>, children: seq<FaceId>, q: nat)
    requires children != [] && q < |faces| && Distinct(faces)
    ensures ReplaceFrom(faces, faces[q], children, |faces|) == faces[q := children[0]] + children[1..]
  {
    var face := faces[q];
    ReplaceSkip(faces, face, children, |faces|, q + 1);
    var faces' := faces[q := children[0]] + children[1..];
    ReplaceSkip(faces', face, children, q, 0);
  }

  /** Splitting live face q replaces exactly that face by its children,
      which are new to the topology, and keeps the live faces distinct faces
      of the topology. */
  lemma SplitFaceKeepsLive(k: Kernel, r: Record, q: nat, resolved: seq<seq<Vertex>>, edges': seq<seq<Vertex>>, ch: seq<nat>)
    requires Live(r) && q < |r.faces| && PathIn(edges', ch)
    ensures var res := SplitFace(k, r, q, resolved, edges', ch);
      res.Ok? ==>
        var r' := res.value.0;
        && Live(r')
        && |r.faces| <= |r'.faces|
        && r'.faces[q] !in r.sh.loops
        && (forall m :: 0 <= m < |r.faces| && m != q ==> r'.faces[m] == r.faces[m])
        && (forall m :: |r.faces| <= m < |r'.faces| ==> r'.faces[m] !in r.sh.loops)
  {
    var (sh', children) := SplitShape(k, r.sh, r.faces[q], resolved);
    if children != [] {
      ChildrenFresh(k, r.sh, r.faces[q], resolved);
      ReplaceOnce(r.faces, children, q);
      ReplacedDistinct(r.faces, children, q, r.sh);
    }
  }

  lemma ReplacedDistinct(faces: seq<FaceId>, children: seq<FaceId>, q: nat, sh: Shape)
    requires q < |faces| && Distinct(faces) && Distinct(children) && children != []
    requires forall f :: f in faces ==> f in sh.loops
    requires forall m :: 0 <= m < |children| ==> children[m] !in sh.loops
    ensures Distinct(faces[q := children[0]] + children[1..])
  {
    var front := faces[q := children[0]];
    forall a, b | 0 <= a < b < |front|
      ensures front[a] != front[b]
    {
      if a != q && b != q {
        assert front[a] == faces[a] && front[b] == faces[b];
      } else if a == q {
        assert front[b] == faces[b] && faces[b] in faces;
      } else {
        assert front[a] == faces[a] && faces[a] in faces;
      }
    }
    forall x | x in front
      ensures x !in children[1..]
    {
      if x != children[0] {
        assert x in faces;
      }
    }
    assert Distinct(children[1..]);
    DistinctJoin(front, children[1..]);
  }

  /** A pass that finds no path only turns chains; a pass that splits has
      found a path, erases as many pending chains as it has, and keeps the
      live faces distinct faces of the topology. */
  lemma ChainPassSplits(g: Geometry, k: Kernel, n: Vec, r: Record)
    requires Live(r)
    ensures var (edges', hit) := SearchFrom(g, r.sh, r.faces, r.edges, 0, 0);
      var res := ChainPass(g, k, n, r);
      && (hit.None? ==> res == Ok((r.(edges := edges'), false)))
      && (res.Ok? && res.value.1 ==>
            && hit.Some?
            && Live(res.value.0)
            && |res.value.0.edges| == |r.edges| - |hit.value.found.chain|)
  {
    var (edges', hit) := SearchFrom(g, r.sh, r.faces, r.edges, 0, 0);
    if hit.Some? {
      var h := hit.value;
      var fv := LoopOf(r.sh, r.faces[h.face]);
      var ch := h.found.chain;
      SearchShape(g, r.sh, r.faces, r.edges, 0, 0);
      var chains := SplitChainsOf(edges', ch, fv, h.first, h.found.last);
      var res := Resolve(g, n, chains, edges'[ch[0]][0], edges'[ch[|ch| - 1]][1]);
      if res.Ok? {
        SplitFaceKeepsLive(k, r, h.face, res.value, edges', ch);
      }
    }
  }

  /** The chain worklist never touches the overlap list. */
  lemma {:induction false} ChainsRecordKeepsOverlap(g: Geometry, k: Kernel, n: Vec, r: Record)
    ensures ChainsRecord(g, k, n, r).Ok? ==> ChainsRecord(g, k, n, r).value.overlap == r.overlap
    decreases |r.edges|
  {
    var p := ChainPass(g, k, n, r);
    if p.Ok? && p.value.1 {
      ChainsRecordKeepsOverlap(g, k, n, p.value.0);
    }
  }

  lemma {:induction false} ChainsRecordKeepsLive(g: Geometry, k: Kernel, n: Vec, r: Record)
    requires Live(r)
    ensures ChainsRecord(g, k, n, r).Ok? ==> Live(ChainsRecord(g, k, n, r).value)
    decreases |r.edges|
  {
    ChainPassSplits(g, k, n, r);
    var p := ChainPass(g, k, n, r);
    if p.Ok? && p.value.1 {
      ChainsRecordKeepsLive(g, k, n, p.value.0);
    }
  }


  // ---------------------------------------------------------------------------
  // The invariant across records: the kernel only grows

  /** The kernel after a pass keeps every face it had, with the same loop. */
  ghost predicate Grows(sh: Shape, sh': Shape)
  {
    forall f :: f in sh.loops ==> f in sh'.loops && LoopOf(sh', f) == LoopOf(sh, f)
  }

  lemma GrowsTrans(a: Shape, b: Shape, c: Shape)
    requires Grows(a, b) && Grows(b, c)
    ensures Grows(a, c)
  {
    forall f | f in a.loops
      ensures f in c.loops && LoopOf(c, f) == LoopOf(a, f)
    {
      assert f in b.loops;
    }
  }

  /** Acting on an overlap decision only adds faces to the kernel. */
  lemma ApplyPlanGrows(k: Kernel, r: Record, j: nat, plan: Plan)
    requires Fresh(r.sh) && j < |r.faces|
    ensures ApplyPlan(k, r, j, plan).Ok? ==> Grows(r.sh, ApplyPlan(k, r, j, plan).value.sh)
  {
    var res := ApplyPlan(k, r, j, plan);
    if res.Ok? {
      if plan.Cut? {
        var (sh', children) := SplitShape(k, r.sh, r.faces[j], plan.chains);
        SplitKeepsFaces(k, r.sh, r.faces[j], plan.chains);
        ChildrenFresh(k, r.sh, r.faces[j], plan.chains);
        assert res.value.sh == sh';
      } else {
        assert res.value.sh == r.sh;
      }
    }
  }

  /** One turn of the chain loop keeps the record Live and only adds faces
      to the kernel. */
  lemma OverlapStepGrows(k: Kernel, r: Record, e: nat)
    requires Live(r) && e < |r.edges|
    ensures var res := OverlapStep(k, r, e);
      res.Ok? ==> Live(res.value.0) && Grows(r.sh, res.value.0.sh)
  {
    if |r.edges[e]| > 2 {
      var fp := FirstPlan(Plans(k, r.sh, r.faces, r.edges[e]), 0);
      if fp.Some? {
        ApplyPlanKeepsLive(k, r, fp.value.0, fp.value.1);
        ApplyPlanGrows(k, r, fp.value.0, fp.value.1);
      } else {
        assert Grows(r.sh, r.sh);
      }
    } else {
      assert Grows(r.sh, r.sh);
    }
  }

  /** The chain loop of one record only adds faces to the kernel. */
  lemma {:induction false} OverlapRecordGrows(k: Kernel, r: Record, e: nat)
    requires Live(r) && e <= |r.edges|
    ensures OverlapRecord(k, r, e).Ok? ==> Grows(r.sh, OverlapRecord(k, r, e).value.sh)
    decreases |r.edges| - e
  {
    if e < |r.edges| {
      OverlapStepGrows(k, r, e);
      var st := OverlapStep(k, r, e);
      if st.Ok? {
        var (r', e') := st.value;
        OverlapRecordGrows(k, r', e');
        if OverlapRecord(k, r', e').Ok? {
          GrowsTrans(r.sh, r'.sh, OverlapRecord(k, r', e').value.sh);
        }
      }
    } else {
      assert Grows(r.sh, r.sh);
    }
  }

  /** One pass of the chain worklist only adds faces to the kernel. */
  lemma SplitFaceGrows(k: Kernel, r: Record, q: nat, resolved: seq<seq<Vertex>>, edges': seq<seq<Vertex>>, ch: seq<nat>)
    requires Fresh(r.sh) && q < |r.faces| && PathIn(edges', ch)
    ensures var res := SplitFace(k, r, q, resolved, edges', ch);
      res.Ok? ==> Grows(r.sh, res.value.0.sh)
  {
    var (sh', children) := SplitShape(k, r.sh, r.faces[q], resolved);
    SplitKeepsFaces(k, r.sh, r.faces[q], resolved);
    ChildrenFresh(k, r.sh, r.faces[q], resolved);
    var res := SplitFace(k, r, q, resolved, edges', ch);
    if res.Ok? {
      assert res.value.0.sh == sh';
    }
  }

  lemma ChainPassGrows(g: Geometry, k: Kernel, n: Vec, r: Record)
    requires Live(r)
    ensures var res := ChainPass(g, k, n, r);
      res.Ok? ==> Grows(r.sh, res.value.0.sh)
  {
    var (edges', hit) := SearchFrom(g, r.sh, r.faces, r.edges, 0, 0);
    var res := ChainPass(g, k, n, r);
    if hit.None? {
      assert res.value.0.sh == r.sh;
      assert Grows(r.sh, r.sh);
    } else {
      var h := hit.value;
      var fv := LoopOf(r.sh, r.faces[h.face]);
      var ch := h.found.chain;
      SearchShape(g, r.sh, r.faces, r.edges, 0, 0);
      var chains := SplitChainsOf(edges', ch, fv, h.first, h.found.last);
      var rs := Resolve(g, n, chains, edges'[ch[0]][0], edges'[ch[|ch| - 1]][1]);
      if rs.Ok? {
        assert res == SplitFace(k, r, h.face, rs.value, edges', ch);
        SplitFaceGrows(k, r, h.face, rs.value, edges', ch);
      }
    }
  }

  /** The chain worklist of one record only adds faces to the kernel. */
  lemma {:induction false} ChainsRecordGrows(g: Geometry, k: Kernel, n: Vec, r: Record)
    requires Live(r)
    ensures ChainsRecord(g, k, n, r).Ok? ==> Grows(r.sh, ChainsRecord(g, k, n, r).value.sh)
    decreases |r.edges|
  {
    ChainPassSplits(g, k, n, r);
    ChainPassGrows(g, k, n, r);
    var p := ChainPass(g, k, n, r);
    if p.Ok? && p.value.1 {
      ChainsRecordGrows(g, k, n, p.value.0);
      if ChainsRecord(g, k, n, r).Ok? {
        GrowsTrans(r.sh, p.value.0.sh, ChainsRecord(g, k, n, r).value.sh);
      }
    }
  }

  /** Every record of both tables satisfies Live over the current kernel. */
  ghost predicate AllLive(st: State)
  {
    && |st.tables| == 2 && |st.overlap| == 2
    && forall i, f :: 0 <= i < 2 && f in st.tables[i] ==> Live(RecordOf(st, i, f))
  }

  /** Writing back a Live record processed over a kernel that only grew
      keeps every record of the state Live. */
  lemma StoreKeepsAllLive(st: State, i: nat, f: FaceId, r: Record)
    requires AllLive(st) && i < 2 && f in st.tables[i]
    requires Live(r) && Grows(st.sh, r.sh)
    ensures AllLive(StoreRecord(st, i, f, r))
  {
    var st' := StoreRecord(st, i, f, r);
    forall i', f' | 0 <= i' < 2 && f' in st'.tables[i']
      ensures Live(RecordOf(st', i', f'))
    {
      if i' != i || f' != f {
        var old_r := RecordOf(st, i', f');
        assert Live(old_r);
        assert RecordOf(st', i', f').faces == old_r.faces;
        forall x | x in old_r.faces
          ensures x in r.sh.loops
        {
          assert x in st.sh.loops;
        }
      }
    }
  }

  /** The overlap pass keeps every record of the state Live. */
  lemma {:induction false} OverlapFromKeepsLive(k: Kernel, order: seq<seq<FaceId>>, st: State, i: nat, n: nat)
    requires Shaped(order, st) && i <= 2 && (i < 2 ==> n <= |order[i]|) && AllLive(st)
    ensures OverlapFrom(k, order, st, i, n).Ok? ==> AllLive(OverlapFrom(k, order, st, i, n).value)
    decreases 2 - i, if i < 2 then |order[i]| - n else 0
  {
    if i < 2 {
      if n == |order[i]| {
        OverlapFromKeepsLive(k, order, st, i + 1, 0);
      } else if order[i][n] in st.tables[i] {
        var f := order[i][n];
        var rec := RecordOf(st, i, f);
        var res := OverlapRecord(k, rec, 0);
        if res.Ok? {
          OverlapRecordKeepsLive(k, rec, 0);
          OverlapRecordGrows(k, rec, 0);
          StoreKeepsAllLive(st, i, f, res.value);
          OverlapFromKeepsLive(k, order, StoreRecord(st, i, f, res.value), i, n + 1);
        }
      } else {
        OverlapFromKeepsLive(k, order, st, i, n + 1);
      }
    }
  }

  /** The chain pass keeps every record of the state Live. */
  lemma {:induction false} ChainsFromKeepsLive(g: Geometry, k: Kernel, order: seq<seq<FaceId>>, st: State, i: nat, n: nat)
    requires Shaped(order, st) && i <= 2 && (i < 2 ==> n <= |order[i]|) && AllLive(st)
    ensures ChainsFrom(g, k, order, st, i, n).Ok? ==> AllLive(ChainsFrom(g, k, order, st, i, n).value)
    decreases 2 - i, if i < 2 then |order[i]| - n else 0
  {
    if i < 2 {
      if n == |order[i]| {
        ChainsFromKeepsLive(g, k, order, st, i + 1, 0);
      } else if order[i][n] in st.tables[i] {
        var f := order[i][n];
        var rec := RecordOf(st, i, f);
        var nrm := st.tables[i][f].normal;
        var res := ChainsRecord(g, k, nrm, rec);
        if res.Ok? {
          ChainsRecordKeepsLive(g, k, nrm, rec);
          ChainsRecordGrows(g, k, nrm, rec);
          StoreKeepsAllLive(st, i, f, res.value);
          ChainsFromKeepsLive(g, k, order, StoreRecord(st, i, f, res.value), i, n + 1);
        }
      } else {
        ChainsFromKeepsLive(g, k, order, st, i, n + 1);
      }
    }
  }

  /** FaceEdgeMap::split keeps every record Live through both passes. */
  lemma SplitAllKeepsLive(g: Geometry, k: Kernel, order: seq<seq<FaceId>>, st: State)
    requires Shaped(order, st) && AllLive(st)
    ensures SplitAll(g, k, order, st).Ok? ==> AllLive(SplitAll(g, k, order, st).value)
  {
    OverlapFromKeepsLive(k, order, st, 0, 0);
    OverlapKeepsShape(k, order, st, 0, 0);
    var o := OverlapFrom(k, order, st, 0, 0);
    if o.Ok? {
      ChainsFromKeepsLive(g, k, order, o.value, 0, 0);
    }
  }

  // ---------------------------------------------------------------------------
  // The splitter list as written (lines 527-528, 536-547)

  /** A face splitter as lines 527-528 leave it: the face it was made for
      and the chain sets it has been applied to, in order. */
  datatype Splitter = Splitter(face: FaceId, applied: seq<seq<seq<Vertex>>>)

  /** The splitter list after the paths one scan finds, as written: each
      find puts a new splitter for its face at the front (emplace_front) and
      applies its chains to the splitter at the back. */
  function QueueAsWritten(finds: seq<(FaceId, seq<seq<Vertex>>)>): (q: seq<Splitter>)
    ensures |q| == |finds|
  {
    if finds == [] then []
    else
      var m := |finds| - 1;
      var q' := [Splitter(finds[m].0, [])] + QueueAsWritten(finds[..m]);
      q'[m := q'[m].(applied := q'[m].applied + [finds[m].1])]
  }

  /** Two paths found in one scan: the back splitter, made for the first
      face, is applied to both chain sets, and the front one, whose result
      the replacement loop of lines 536-547 reads, is never applied, so it
      has no new face and the loop throws. */
  lemma QueueAsWrittenMisapplies(f1: FaceId, c1: seq<seq<Vertex>>, f2: FaceId, c2: seq<seq<Vertex>>)
    ensures var q := QueueAsWritten([(f1, c1), (f2, c2)]);
      q == [Splitter(f2, []), Splitter(f1, [c1, c2])]
  {
    var one := [(f1, c1)];
    assert one[..0] == [];
    var q1 := [Splitter(f1, [])] + QueueAsWritten(one[..0]);
    assert q1 == [Splitter(f1, [])];
    assert q1[0].applied + [one[0].1] == [c1];
    assert q1[0 := q1[0].(applied := q1[0].applied + [one[0].1])] == [Splitter(f1, [c1])];
    assert QueueAsWritten(one) == [Splitter(f1, [c1])];
    var two := [(f1, c1), (f2, c2)];
    assert two[..1] == one;
    var q2 := [Splitter(f2, [])] + QueueAsWritten(two[..1]);
    assert q2 == [Splitter(f2, []), Splitter(f1, [c1])];
    assert q2[1].applied + [two[1].1] == [c1, c2];
    assert q2[1 := q2[1].(applied := q2[1].applied + [two[1].1])] == [Splitter(f2, []), Splitter(f1, [c1, c2])];
  }

  // ---------------------------------------------------------------------------
  // The imperative map

  /** std::vector<Geo::Point> built vertex by vertex (lines 48-55). */
  method FacePoints(g: Geometry, loop: seq<Vertex>) returns (pts: seq<Vec>)
    ensures pts == Points(g, loop)
  {
    pts := [];
    for m := 0 to |loop|
      invariant pts == Points(g, loop[..m])
    {
      assert loop[..m + 1] == loop[..m] + [loop[m]];
      pts := pts + [g.position(loop[m])];
    }
    assert loop[..|loop|] == loop;
  }

  /** The normal a new record gets (lines 46-62): the plane-fit normal of
      the boundary, flipped to agree with the polygon's own normal. */
  method FaceNormal(g: Geometry, loop: seq<Vertex>) returns (n: Vec)
    ensures n == CanonicalNormal(g, loop)
  {
    var pts := FacePoints(g, loop);
    n := g.planeFitNormal(pts);
    if Dot(g.polygonNormal(pts), n) < 0.0 {
      n := Neg(n);
    }
  }

  /** The decision loop over the live faces (lines 141-196): the first face
      whose plan is not a skip. */
  method FindPlan(k: Kernel, topo: Topology, faces: seq<FaceId>, chain: seq<Vertex>) returns (r: Option<(nat, Plan)>)
    ensures r == FirstPlan(Plans(k, topo.Current(), faces, chain), 0)
  {
    ghost var plans := Plans(k, topo.Current(), faces, chain);
    var j := 0;
    while j < |faces|
      invariant j <= |faces|
      invariant FirstPlan(plans, j) == FirstPlan(plans, 0)
    {
      var plan := PlanFace(topo.Loop(faces[j]), chain, k);
      if !plan.Skip? {
        return Some((j, plan));
      }
      j := j + 1;
    }
    return None;
  }

  /** Acting on the decision for live face j (lines 197-253). */
  method ActOnPlan(topo: Topology, r: Record, j: nat, plan: Plan) returns (res: Result<Record>)
    requires j < |r.faces| && r.sh == topo.Current()
    modifies topo
    ensures res == ApplyPlan(topo.kernel, r, j, plan)
    ensures res.Ok? ==> topo.Current() == res.value.sh
  {
    match plan
    case Skip =>
      return Ok(r);
    case Whole =>
      return Ok(r.(overlap := r.overlap + [r.faces[j]]));
    case Abort(e) =>
      return Fail(e);
    case Cut(chains) =>
      var children := topo.Split(r.faces[j], chains);
      if children == [] {
        return Fail(DegenerateSplit);
      }
      return Ok(r.(sh := topo.Current(), overlap := r.overlap + [children[0]], faces := r.faces[..j] + r.faces[j + 1..] + children));
  }

  /** The chain loop of lines 133-257 on one record. */
  method SplitRecordOverlaps(topo: Topology, r0: Record) returns (res: Result<Record>)
    requires r0.sh == topo.Current()
    modifies topo
    ensures res == OverlapRecord(topo.kernel, r0, 0)
    ensures res.Ok? ==> topo.Current() == res.value.sh
  {
    var r := r0;
    var e := 0;
    while e < |r.edges|
      invariant e <= |r.edges| && r.sh == topo.Current()
      invariant OverlapRecord(topo.kernel, r, e) == OverlapRecord(topo.kernel, r0, 0)
      decreases |r.edges| - e
    {
      if |r.edges[e]| <= 2 {
        e := e + 1;
      } else {
        var found := FindPlan(topo.kernel, topo, r.faces, r.edges[e]);
        match found
        case None =>
          e := e + 1;
        case Some((j, plan)) =>
          var a := ActOnPlan(topo, r, j, plan);
          if a.Fail? {
            return Fail(a.error);
          }
          r := a.value.(edges := r.edges[..e] + r.edges[e + 1..]);
      }
    }
    return Ok(r);
  }

  /** The face and vertex loops of lines 484-495, up to the first path. */
  method Search(g: Geometry, topo: Topology, faces: seq<FaceId>, edges: seq<seq<Vertex>>)
    returns (edges': seq<seq<Vertex>>, hit: Option<Hit>)
    ensures (edges', hit) == SearchFrom(g, topo.Current(), faces, edges, 0, 0)
  {
    edges' := edges;
    var j := 0;
    while j < |faces|
      invariant j <= |faces|
      invariant SearchFrom(g, topo.Current(), faces, edges', j, 0) == SearchFrom(g, topo.Current(), faces, edges, 0, 0)
    {
      var fv := topo.Loop(faces[j]);
      var p := 0;
      while p < |fv|
        invariant p <= |fv|
        invariant SearchFrom(g, topo.Current(), faces, edges', j, p) == SearchFrom(g, topo.Current(), faces, edges, 0, 0)
      {
        var turned, found := FindEdgeChain(g, fv[p], edges', fv);
        if found.Some? {
          return turned, Some(Hit(j, p, found.value));
        }
        edges' := turned;
        p := p + 1;
      }
      j := j + 1;
    }
    hit := None;
  }

  /** The erase loop of lines 529-531: the path's chains, last position
      first. */
  method EraseSegments(edges: seq<seq<Vertex>>, ch: seq<nat>) returns (r: seq<seq<Vertex>>)
    ensures r == Without(edges, ch)
  {
    r := edges;
    var q := |edges|;
    while q > 0
      invariant 0 <= q <= |edges| && r == edges[..q] + Kept(edges, ch, q)
    {
      q := q - 1;
      assert edges[..q + 1] == edges[..q] + [edges[q]];
      if q in ch {
        assert r[..q] == edges[..q] && r[q + 1..] == Kept(edges, ch, q + 1);
        r := r[..q] + r[q + 1..];
      }
    }
  }

  /** The replacement loop of lines 540-547. */
  method ReplaceFace(faces: seq<FaceId>, face: FaceId, children: seq<FaceId>) returns (r: seq<FaceId>)
    requires children != []
    ensures r == ReplaceFrom(faces, face, children, |faces|)
  {
    r := faces;
    var j := |faces|;
    while j > 0
      invariant 0 <= j <= |faces| <= |r|
      invariant ReplaceFrom(r, face, children, j) == ReplaceFrom(faces, face, children, |faces|)
    {
      j := j - 1;
      if r[j] == face {
        r := r[j := children[0]] + children[1..];
      }
    }
  }

  /** One pass of the worklist of lines 480-548, one split at most. */
  method SplitOnce(g: Geometry, topo: Topology, n: Vec, r: Record) returns (res: Result<(Record, bool)>)
    requires r.sh == topo.Current()
    modifies topo
    ensures res == ChainPass(g, topo.kernel, n, r)
    ensures res.Ok? ==> topo.Current() == res.value.0.sh
  {
    var edges', hit := Search(g, topo, r.faces, r.edges);
    if hit.None? {
      return Ok((r.(edges := edges'), false));
    }
    var h := hit.value;
    SearchShape(g, r.sh, r.faces, r.edges, 0, 0);
    var fv := topo.Loop(r.faces[h.face]);
    var ch := h.found.chain;
    var chains := BuildSplitChains(edges', ch, fv, h.first, h.found.last);
    var resolved := ResolveAmbiguities(g, n, chains, edges'[ch[0]][0], edges'[ch[|ch| - 1]][1]);
    if resolved.Fail? {
      return Fail(resolved.error);
    }
    var children := topo.Split(r.faces[h.face], resolved.value);
    if children == [] {
      return Fail(DegenerateSplit);
    }
    var faces' := ReplaceFace(r.faces, r.faces[h.face], children);
    var kept := EraseSegments(edges', ch);
    WithoutLength(edges', ch);
    return Ok((Record(topo.Current(), faces', kept, r.overlap), true));
  }

  /** The worklist of lines 480-548 on one record. */
  method SplitRecordWithChains(g: Geometry, topo: Topology, n: Vec, r0: Record) returns (res: Result<Record>)
    requires r0.sh == topo.Current()
    modifies topo
    ensures res == ChainsRecord(g, topo.kernel, n, r0)
    ensures res.Ok? ==> topo.Current() == res.value.sh
  {
    var r := r0;
    var more := true;
    res := Ok(r0);
    while more
      invariant r.sh == topo.Current()
      invariant more ==> ChainsRecord(g, topo.kernel, n, r) == ChainsRecord(g, topo.kernel, n, r0)
      invariant !more ==> res == ChainsRecord(g, topo.kernel, n, r0) && (res.Ok? ==> topo.Current() == res.value.sh)
      decreases more, |r.edges|
    {
      var p := SplitOnce(g, topo, n, r);
      if p.Fail? {
        return Fail(p.error);
      } else if p.value.1 {
        r := p.value.0;
      } else {
        res := Ok(p.value.0);
        more := false;
      }
    }
  }

  /** The loop of lines 117-120 over one table, in key order. */
  method InitTable(t0: Table, ks: seq<FaceId>) returns (t: Table)
    requires Ordered(t0, ks)
    ensures t == Initialised(t0)
  {
    t := t0;
    for n := 0 to |ks|
      invariant t.Keys == t0.Keys
      invariant forall f :: f in t0 ==> t[f] == if f in ks[..n] then t0[f].(faces := t0[f].faces + [f]) else t0[f]
    {
      var f := ks[n];
      assert ks[..n + 1] == ks[..n] + [f];
      assert f !in ks[..n];
      t := t[f := t[f].(faces := t[f].faces + [f])];
    }
    assert ks[..|ks|] == ks;
    assert forall f :: f in t0 ==> f in ks;
    assert t == Initialised(t0);
  }

  /** FaceEdgeMap: one table per solid (map_[0] for the faces of the first
      solid, map_[1] for the second), with the keys of each in map order. */
  class FaceEdgeMap {
    var tables: seq<Table>
    var order: seq<seq<FaceId>>

    ghost predicate Valid()
      reads this
    {
      |tables| == 2 && |order| == 2 && Ordered(tables[0], order[0]) && Ordered(tables[1], order[1])
    }

    constructor ()
      ensures Valid() && tables == [map[], map[]] && order == [[], []]
    {
      tables := [map[], map[]];
      order := [[], []];
    }

    /** add_face_edge (lines 35-66): it always answers true. */
    method AddFaceEdge(g: Geometry, topo: Topology, face: FaceId, chain: seq<Vertex>, isB: bool) returns (ok: bool)
      requires Valid()
      modifies this
      ensures Valid() && ok
      ensures var i := if isB then 1 else 0;
        && tables == old(tables)[i := AddEdge(g, topo.Current(), old(tables)[i], face, chain)]
        && order == old(order)[i := Insert(old(order)[i], face)]
    {
      var i := if isB then 1 else 0;
      var t := tables[i];
      if face in t {
        t := t[face := t[face].(edges := t[face].edges + [chain])];
      } else {
        var n := FaceNormal(g, topo.Loop(face));
        t := t[face := FaceData(n, [], [chain])];
      }
      tables := tables[i := t];
      order := order[i := Insert(order[i], face)];
      ok := true;
    }

    /** init_map (lines 114-121). */
    method InitMap()
      requires Valid()
      modifies this
      ensures Valid() && order == old(order)
      ensures tables == [Initialised(old(tables[0])), Initialised(old(tables[1]))]
    {
      var t0 := InitTable(tables[0], order[0]);
      var t1 := InitTable(tables[1], order[1]);
      tables := [t0, t1];
    }

    /** split_overlaps_on_boundary (lines 123-260). */
    method SplitOverlapsOnBoundary(topo: Topology, overlap: seq<seq<FaceId>>) returns (res: Result<seq<seq<FaceId>>>)
      requires Valid() && |overlap| == 2
      modifies this, topo
      ensures var spec := OverlapFrom(topo.kernel, old(order), State(old(tables), old(topo.Current()), overlap), 0, 0);
        && (spec.Fail? ==> res == Fail(spec.error))
        && (spec.Ok? ==> res == Ok(spec.value.overlap) && Valid() && order == old(order)
                         && tables == spec.value.tables && topo.Current() == spec.value.sh)
    {
      ghost var spec := OverlapFrom(topo.kernel, order, State(tables, topo.Current(), overlap), 0, 0);
      var ov := overlap;
      for i := 0 to 2
        invariant Valid() && order == old(order) && |ov| == 2
        invariant OverlapFrom(topo.kernel, order, State(tables, topo.Current(), ov), i, 0) == spec
      {
        var r := OverlapsOfTable(topo, ov, i);
        if r.Fail? {
          return Fail(r.error);
        }
        ov := r.value;
      }
      assert spec == Ok(State(tables, topo.Current(), ov));
      return Ok(ov);
    }

    /** The loop of lines 128-259 over the records of table i, in key order. */
    method OverlapsOfTable(topo: Topology, ov: seq<seq<FaceId>>, i: nat) returns (res: Result<seq<seq<FaceId>>>)
      requires Valid() && |ov| == 2 && i < 2
      modifies this, topo
      ensures order == old(order)
      ensures var before := OverlapFrom(topo.kernel, old(order), State(old(tables), old(topo.Current()), ov), i, 0);
        && (res.Fail? ==> before == Fail(res.error))
        && (res.Ok? ==> Valid() && |res.value| == 2
                        && before == OverlapFrom(topo.kernel, order, State(tables, topo.Current(), res.value), i + 1, 0))
    {
      ghost var before := OverlapFrom(topo.kernel, order, State(tables, topo.Current(), ov), i, 0);
      var cur := ov;
      for n := 0 to |order[i]|
        invariant Valid() && order == old(order) && |cur| == 2
        invariant OverlapFrom(topo.kernel, order, State(tables, topo.Current(), cur), i, n) == before
      {
        res := OverlapsOfFace(topo, cur, i, n);
        if res.Fail? {
          return;
        }
        cur := res.value;
      }
      OverlapNextTable(topo.kernel, order, State(tables, topo.Current(), cur), i);
      res := Ok(cur);
    }

    /** The body of the loop of lines 126-129 for the n-th face of table i:
        its record, if it has one, has its overlaps split. */
    method OverlapsOfFace(topo: Topology, ov: seq<seq<FaceId>>, i: nat, n: nat) returns (res: Result<seq<seq<FaceId>>>)
      requires Valid() && |ov| == 2 && i < 2 && n < |order[i]|
      modifies this, topo
      ensures order == old(order)
      ensures var before := OverlapFrom(topo.kernel, old(order), State(old(tables), old(topo.Current()), ov), i, n);
        && (res.Fail? ==> before == Fail(res.error))
        && (res.Ok? ==> Valid() && |res.value| == 2
                        && before == OverlapFrom(topo.kernel, order, State(tables, topo.Current(), res.value), i, n + 1))
    {
      var f := order[i][n];
      if f !in tables[i] {
        return Ok(ov);
      }
      var d := tables[i][f];
      var rec := Record(topo.Current(), d.faces, d.edges, ov[i]);
      ghost var st := State(tables, rec.sh, ov);
      assert RecordOf(st, i, f) == rec;
      var r := SplitRecordOverlaps(topo, rec);
      if r.Fail? {
        return Fail(r.error);
      }
      tables := tables[i := tables[i][f := d.(faces := r.value.faces, edges := r.value.edges)]];
      res := Ok(ov[i := r.value.overlap]);
      assert State(tables, topo.Current(), res.value) == StoreRecord(st, i, f, r.value);
    }

    /** split_with_chains (lines 474-551). */
    method SplitWithChains(g: Geometry, topo: Topology, overlap: seq<seq<FaceId>>) returns (res: Result<seq<seq<FaceId>>>)
      requires Valid() && |overlap| == 2
      modifies this, topo
      ensures var spec := ChainsFrom(g, topo.kernel, old(order), State(old(tables), old(topo.Current()), overlap), 0, 0);
        && (spec.Fail? ==> res == Fail(spec.error))
        && (spec.Ok? ==> res == Ok(spec.value.overlap) && Valid() && order == old(order)
                         && tables == spec.value.tables && topo.Current() == spec.value.sh)
    {
      ghost var spec := ChainsFrom(g, topo.kernel, order, State(tables, topo.Current(), overlap), 0, 0);
      for i := 0 to 2
        invariant Valid() && order == old(order)
        invariant ChainsFrom(g, topo.kernel, order, State(tables, topo.Current(), overlap), i, 0) == spec
      {
        var err := ChainsOfTable(g, topo, overlap, i);
        if err.Some? {
          return Fail(err.value);
        }
      }
      assert spec == Ok(State(tables, topo.Current(), overlap));
      return Ok(overlap);
    }

    /** The loop of lines 477-550 over the records of table i, in key order. */
    method ChainsOfTable(g: Geometry, topo: Topology, overlap: seq<seq<FaceId>>, i: nat) returns (err: Option<Error>)
      requires Valid() && |overlap| == 2 && i < 2
      modifies this, topo
      ensures order == old(order)
      ensures var before := ChainsFrom(g, topo.kernel, old(order), State(old(tables), old(topo.Current()), overlap), i, 0);
        && (err.Some? ==> before == Fail(err.value))
        && (err.None? ==> Valid() && before == ChainsFrom(g, topo.kernel, order, State(tables, topo.Current(), overlap), i + 1, 0))
    {
      ghost var before := ChainsFrom(g, topo.kernel, order, State(tables, topo.Current(), overlap), i, 0);
      var n := 0;
      while n < |order[i]|
        invariant Valid() && order == old(order) && n <= |order[i]|
        invariant ChainsFrom(g, topo.kernel, order, State(tables, topo.Current(), overlap), i, n) == before
      {
        err := ChainsOfFace(g, topo, overlap, i, n);
        if err.Some? {
          return;
        }
        n := n + 1;
      }
      ChainsNextTable(g, topo.kernel, order, State(tables, topo.Current(), overlap), i);
      err := None;
    }

    /** The body of the loop of lines 479-550 for the n-th face of table i:
        its record, if it has one, is split along all its chains. */
    method ChainsOfFace(g: Geometry, topo: Topology, overlap: seq<seq<FaceId>>, i: nat, n: nat) returns (err: Option<Error>)
      requires Valid() && |overlap| == 2 && i < 2 && n < |order[i]|
      modifies this, topo
      ensures order == old(order)
      ensures var before := ChainsFrom(g, topo.kernel, old(order), State(old(tables), old(topo.Current()), overlap), i, n);
        && (err.Some? ==> before == Fail(err.value))
        && (err.None? ==> Valid() && before == ChainsFrom(g, topo.kernel, order, State(tables, topo.Current(), overlap), i, n + 1))
    {
      var f := order[i][n];
      if f !in tables[i] {
        return None;
      }
      var d := tables[i][f];
      var rec := Record(topo.Current(), d.faces, d.edges, overlap[i]);
      ghost var st := State(tables, rec.sh, overlap);
      assert RecordOf(st, i, f) == rec;
      var r := SplitRecordWithChains(g, topo, d.normal, rec);
      if r.Fail? {
        return Some(r.error);
      }
      ChainsRecordKeepsOverlap(g, topo.kernel, d.normal, rec);
      assert overlap[i := r.value.overlap] == overlap;
      tables := tables[i := tables[i][f := d.(faces := r.value.faces, edges := r.value.edges)]];
      assert State(tables, topo.Current(), overlap) == StoreRecord(st, i, f, r.value);
      err := None;
    }

    /** split (lines 553-557): the overlap pass, then the chain worklist. */
    method Split(g: Geometry, topo: Topology, overlap: seq<seq<FaceId>>) returns (res: Result<seq<seq<FaceId>>>)
      requires Valid() && |overlap| == 2
      modifies this, topo
      ensures var spec := SplitAll(g, topo.kernel, old(order), State(old(tables), old(topo.Current()), overlap));
        && (spec.Fail? ==> res == Fail(spec.error))
        && (spec.Ok? ==> res == Ok(spec.value.overlap) && Valid() && order == old(order)
                         && tables == spec.value.tables && topo.Current() == spec.value.sh)
    {
      OverlapKeepsShape(topo.kernel, order, State(tables, topo.Current(), overlap), 0, 0);
      var first := SplitOverlapsOnBoundary(topo, overlap);
      if first.Fail? {
        return first;
      }
      res := SplitWithChains(g, topo, first.value);
    }
  }
}
