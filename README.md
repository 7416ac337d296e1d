# Face splitting of the boolean face-versus-face step

This project models, in Dafny, the core of `main/src/Boolean/face_face.cc`:
the step of a boolean operation between two solids that splits the faces of
both solids along the vertices they share.

`FaceVersus::face_intersect` first works out the common vertices of every
pair of faces, one face from each solid. A face's vertex set is its new
intersection vertices plus its boundary, kept as a sorted set. Every common
set of at least two vertices is registered as a chain on both faces of the
pair. The registry is a `FaceEdgeMap`. It has one table per solid, keyed by
face, and each record holds:

- the face's canonical normal;
- the live faces the original face has been split into so far;
- the chains still waiting to split it.

`FaceEdgeMap::split` then runs two passes.

- **Overlap pass** (`split_overlaps_on_boundary`). A chain of more than two
  vertices is matched against the boundaries of the live faces.
  - If it shares no vertex with a face, that face is passed over.
  - If it covers the whole boundary, the face goes to the overlap list.
  - Otherwise the boundary is cut into common and not-common runs. The
    common runs are joined by kernel-repaired paths, and the face is split
    along the resulting chains.
  - Two conditions are fatal: a face whose boundary lies within the chain
    without matching it exactly, and a run that cannot be repaired.
- **Chain pass** (`split_with_chains`). The remaining two-vertex chains are
  segments. A worklist looks for a path of segments that crosses a live face
  from one boundary vertex to another (`find_edge_chain`). The path and the
  two boundary arcs make up the two split chains. When a loop touches the
  boundary at a single vertex, `resolve_ambiguities` repairs the chains:
  - it cuts each chain into sub-loops at repeated vertices;
  - it classifies each sub-loop by its normal;
  - it moves each inner loop into the outer loop that contains it.

  The face is split and its children take its place.

Modelling choices:

- Vertices and faces are integer identities.
- The topology kernel is a class, `Topology.Topology`, holding the
  boundary loop of every face and the next fresh face identity. What its
  face splitter and path repair return is given by the oracle functions of
  a `Kernel` value.
- Geometry is given by the oracle functions of a `Geometry` value: vertex
  positions, plane fit, polygon normal and point-in-polygon.
- The imperative parts are methods over sequences, arrays and the
  `FaceEdgeMap` and `Topology` classes. Each method is proved equal to a
  specification function, and the properties of those functions are proved
  as lemmas.
- Every fatal condition (`THROW_IF`) becomes an `Error` in a `Result`.

Modules:

- `Base`: identities, errors, vectors, geometry oracles and sequence helpers.
- `Topology`: the kernel's face loops and its split.
- `Runs`: the classification of a boundary into common and not-common runs.
- `Overlap`: the decision and split chains for one face in the overlap pass.
- `EdgeChain`: `find_edge_chain` and `follow_chain`.
- `ChainSplit`: the split chains of a found path (`complete_chain`).
- `Ambiguity`: `resolve_ambiguities`.
- `FaceEdgeMap`: the map class and both passes.
- `FaceVersus`: `face_vertices` and `face_intersect`.

## Model

| member | source | states |
|---|---|---|
| Base.CanonicalNormal | main/src/Boolean/face_face.cc:46-63 | The record normal is the plane-fit normal or its opposite, and never points against the normal of the polygon through the face's vertices. |
| Base.PaddedPolygon | main/src/Boolean/face_face.cc:369-376 | The polygon given to the classifier has 2n points: n origin points first, then the n vertex positions in loop order. |
| Base.IndexOf | main/src/Boolean/face_face.cc:155-156 | std::find: the first position holding the vertex, and the sequence length exactly when the vertex is absent. |
| Base.RemoveFirst | main/src/Boolean/face_face.cc:155-165 | Erasing a found vertex from the chain copy removes exactly one occurrence. Erasing an absent one leaves the copy unchanged. |
| Topology.Topology.Split | main/src/Boolean/face_face.cc:247-252 | The kernel's new state and children are exactly those of the split function on the old state. |
| Topology.SplitKeepsFaces | main/src/Boolean/face_face.cc:247-252 | A split creates one fresh, distinct face per loop the splitter returns, with that loop as its boundary. It keeps every existing face's boundary and adds no other face. |
| Runs.ScanBoundary | main/src/Boolean/face_face.cc:148-173 | The scan's common runs, not-common runs, leftover chain copy and first/last flags are those of the run classification. |
| Runs.ClassifyBoundary | main/src/Boolean/face_face.cc:144-193 | The classification loop followed by the seam merge yields the run decomposition of the boundary against the chain. |
| Runs.MergeTailInPlace | main/src/Boolean/face_face.cc:177-186 | merge_tail folds the last run into the first exactly when the boundary starts that run and there are two or more runs. |
| Runs.Bracket | main/src/Boolean/face_face.cc:203-218 | Each not-common run is extended by the last vertex of the common run before it and the first vertex of the common run after it. |
| Runs.ClassifyConsumes | main/src/Boolean/face_face.cc:155-165 | The common vertices found plus what is left of the chain copy make up the chain, as a multiset. |
| Runs.CommonIffInChain | main/src/Boolean/face_face.cc:155-173 | On a boundary without repeated vertices, a vertex is marked common if and only if it is on both the boundary and the chain. |
| Runs.AllCommonIff | main/src/Boolean/face_face.cc:175-198 | There is no not-common run if and only if the boundary lies within the chain as a multiset. In that case the common runs spell the boundary. |
| Runs.DecomposeIsCyclicCut | main/src/Boolean/face_face.cc:144-193 | Once merged, common and not-common runs alternate, equal in number (a single common run when none is not-common), and read together they are a rotation of the boundary. |
| Runs.BracketedAdjacent | main/src/Boolean/face_face.cc:203-218 | The j-th bracketed run is its not-common run between the neighbouring vertices on the cyclic boundary, whichever kind of run comes first. |
| Overlap.ConnectRuns | main/src/Boolean/face_face.cc:219-231 | The connection loop succeeds if and only if every common run is repaired. On success it returns the repaired paths and the outer split chain built from them. |
| Overlap.FindConnection | main/src/Boolean/face_face.cc:234-244 | The matching loop finds the first connection whose two ends are the bracketed run's two ends. |
| Overlap.CloseRuns | main/src/Boolean/face_face.cc:232-245 | Each bracketed run that has a matching connection contributes one split chain, in run order. |
| Overlap.PlanFace | main/src/Boolean/face_face.cc:144-246 | The decision for one face equals the overlap plan of its boundary against the chain. |
| Overlap.PlanSkipIff | main/src/Boolean/face_face.cc:175-176 | A face is passed over if and only if its boundary shares no vertex with the chain. |
| Overlap.PlanWholeIff | main/src/Boolean/face_face.cc:197-198 | A face goes to the overlap list if and only if its non-empty boundary equals the chain as a multiset. |
| Overlap.PlanMalformedIff | main/src/Boolean/face_face.cc:201-202 | The malformed-overlap error is raised if and only if the non-empty boundary lies strictly within the chain as a multiset. |
| Overlap.PlanCutIff | main/src/Boolean/face_face.cc:203-231 | A face is split if and only if it shares a vertex with the chain, does not lie within it, and every common run can be repaired. |
| Overlap.ConnectionsIff | main/src/Boolean/face_face.cc:222-227 | Repairing the common runs succeeds if and only if each one repairs, and the c-th path is the repair of the c-th run. |
| Overlap.OuterChainHoldsRuns | main/src/Boolean/face_face.cc:228-230 | The first split chain contains every common vertex. |
| Overlap.ClosingChainsShape | main/src/Boolean/face_face.cc:232-245 | Every further split chain is a bracketed run followed by the reversed interior of a connection with the same ends, and there are at most as many as runs. |
| Overlap.PlanCutChains | main/src/Boolean/face_face.cc:203-246 | A split has as many common as not-common runs. Its first chain holds every common vertex, and each further chain closes a bracketed run with a repaired path. |
| Overlap.PlanCutBrackets | main/src/Boolean/face_face.cc:203-218 | In a split, every bracketed run is a contiguous arc of the cyclic boundary. |
| EdgeChain.NextUnused | main/src/Boolean/face_face.cc:282-299 | The candidate search returns the first unused segment touching the current end. |
| EdgeChain.FollowLinks | main/src/Boolean/face_face.cc:276-304 | The link loop gives the same walk as the specification of follow_chain. |
| EdgeChain.FollowChain | main/src/Boolean/face_face.cc:272-325 | follow_chain, with its inside test, gives the same reoriented segments and found path as its specification: a path is kept only when the second vertex of its first segment (or that segment's midpoint, for a one-segment path) classifies inside the face. |
| EdgeChain.FindEdgeChain | main/src/Boolean/face_face.cc:264-348 | find_edge_chain gives the same reoriented segments and found path as its specification. |
| EdgeChain.FollowShape | main/src/Boolean/face_face.cc:276-304 | A walk only flips segments. A found path is made of distinct linked segments and leaves the interior only at a boundary vertex. |
| EdgeChain.FollowFromShape | main/src/Boolean/face_face.cc:272-325 | A path found from the start vertex begins there, is linked, ends on the boundary and passes the inside test. |
| EdgeChain.FindShape | main/src/Boolean/face_face.cc:326-347 | Whatever find_edge_chain returns is a valid path from the given vertex, and the segment list changes only by flipping segments. |
| ChainSplit.PathVertices | main/src/Boolean/face_face.cc:498-502 | The path's vertex list is the first vertex of the first segment followed by the second vertex of every segment. |
| ChainSplit.CompleteChain | main/src/Boolean/face_face.cc:508-518 | complete_chain appends the boundary arc strictly between the two positions, wrapping past the end. |
| ChainSplit.BuildSplitChains | main/src/Boolean/face_face.cc:498-521 | The two split chains are the path with the arc from its end back to its start, and the reversed path with the other arc. |
| ChainSplit.PathEnds | main/src/Boolean/face_face.cc:498-502 | The path has one vertex more than it has segments, and each consecutive pair of vertices is the matching segment. |
| ChainSplit.ArcsRotate | main/src/Boolean/face_face.cc:508-521 | Both ends and the two arcs between them spell the boundary rotated to start at the first end. |
| ChainSplit.ArcsPartition | main/src/Boolean/face_face.cc:508-521 | The two arcs and the two ends use every boundary vertex exactly once. |
| ChainSplit.SplitChainsCover | main/src/Boolean/face_face.cc:498-521 | The two split chains run from one end of the path to the other in opposite directions. When the ends differ, their arc parts together spell the whole boundary. When the path returns to its start vertex, the first chain's arc is the whole rest of the boundary and the second chain is the reversed path alone. |
| Ambiguity.FindOccurrences | main/src/Boolean/face_face.cc:396-406 | The scan returns the positions of the test vertex in the chain, in increasing order. |
| Ambiguity.OccurrencesComplete | main/src/Boolean/face_face.cc:400-404 | No position holding the test vertex is missed. |
| Ambiguity.CutPiece | main/src/Boolean/face_face.cc:421-428 | The walk from one position to the next, wrapping past the end, yields the sub-loop between them. |
| Ambiguity.PiecesShape | main/src/Boolean/face_face.cc:413-428 | A chain with k >= 2 occurrences of the vertex yields k sub-loops. Each starts and ends at the vertex and does not pass through it in between. |
| Ambiguity.PiecesCover | main/src/Boolean/face_face.cc:417-428 | The sub-loops, each without its closing vertex, spell the chain rotated to the last occurrence. |
| Ambiguity.SortLoop | main/src/Boolean/face_face.cc:413-434 | The sub-loops of one chain are sorted into internal and external ones by the sign of their normal against the expected normal. |
| Ambiguity.SortSubLoops | main/src/Boolean/face_face.cc:410-435 | Sorting all chains gives the internal list and, per chain, the external sub-loops. |
| Ambiguity.KeepPartition | main/src/Boolean/face_face.cc:429-433 | Every sub-loop is kept as internal or as external, and never as both. |
| Ambiguity.SortPartition | main/src/Boolean/face_face.cc:410-435 | The internal and external sub-loops together are exactly all the sub-loops, as a multiset. |
| Ambiguity.FindContaining | main/src/Boolean/face_face.cc:449-460 | The search returns the first external sub-loop, in chain order, that contains the sample point, and None only when no sub-loop contains it. |
| Ambiguity.LocateAll | main/src/Boolean/face_face.cc:438-462 | Locating every internal loop, in order, gives the same placement as its specification, or the unlocated-loop error when one internal loop finds no containing external loop after the earlier internal loops were folded in. |
| Ambiguity.PlaceKeepsVertices | main/src/Boolean/face_face.cc:453-457 | Placing an internal loop adds exactly its vertices to the external loops. |
| Ambiguity.LocateKeepsVertices | main/src/Boolean/face_face.cc:438-462 | After all internal loops are placed, the external loops hold their own vertices plus those of every internal loop. |
| Ambiguity.RewriteLoops | main/src/Boolean/face_face.cc:463-470 | Each chain with a repeated vertex is rewritten as the concatenation of its external sub-loops; the other chains are kept. |
| Ambiguity.ResolvePass | main/src/Boolean/face_face.cc:408-471 | One pass for a test vertex equals its specification. |
| Ambiguity.ResolveVertexKeepsVertices | main/src/Boolean/face_face.cc:408-471 | The corrected pass, when it succeeds, loses no vertex and adds none: a vertex is on some split chain afterwards if and only if it was on one before. |
| Ambiguity.ResolveKeepsVertices | main/src/Boolean/face_face.cc:386-472 | The same holds for both passes of resolve_ambiguities together. |
| Ambiguity.ResolveVertexKeepsUnrepeated | main/src/Boolean/face_face.cc:463-470 | A chain in which the vertex occurs less than twice comes out unchanged. |
| Ambiguity.ResolveAmbiguities | main/src/Boolean/face_face.cc:386-472 | resolve_ambiguities runs the pass for the first end of the path, then for the last end, and equals the resolution function. |
| FaceEdgeMap.Insert | main/src/Boolean/face_face.cc:40-41 | Adding a key keeps the key list strictly increasing, adds exactly that key, and changes nothing when the key is already present. |
| FaceEdgeMap.AddEdge | main/src/Boolean/face_face.cc:35-66 | A known face gets the chain appended. A new face gets a record with its canonical normal, no live faces and only this chain. No other record changes. |
| FaceEdgeMap.InitialisedLive | main/src/Boolean/face_face.cc:114-121 | After init_map, every record's live-face list is exactly the face itself. |
| FaceEdgeMap.FaceNormal | main/src/Boolean/face_face.cc:46-63 | The normal computed for a new record is the canonical normal. |
| FaceEdgeMap.InitTable | main/src/Boolean/face_face.cc:117-120 | Walking one table in key order appends each face to its own live-face list. |
| FaceEdgeMap.FindPlan | main/src/Boolean/face_face.cc:141-196 | The face loop stops at the first live face the chain is not passed over on. |
| FaceEdgeMap.FirstPlanShape | main/src/Boolean/face_face.cc:141-196 | That face's plan is not a pass-over, every live face before it is passed over, and None means all are. |
| FaceEdgeMap.ActOnPlan | main/src/Boolean/face_face.cc:197-253 | Acting on the plan equals its specification, and the kernel then holds the record's shape. |
| FaceEdgeMap.SplitRecordOverlaps | main/src/Boolean/face_face.cc:132-257 | The chain loop on one record equals its specification, and the kernel then holds the record's shape. |
| FaceEdgeMap.OverlapRecordEdges | main/src/Boolean/face_face.cc:132-257 | The overlap pass only erases chains: a sub-multiset of them remains, and every chain of at most two vertices survives. |
| FaceEdgeMap.OverlapRecordAppends | main/src/Boolean/face_face.cc:197-198 | The overlap pass only appends to the overlap list, at most once per chain. |
| FaceEdgeMap.ApplyPlanKeepsLive | main/src/Boolean/face_face.cc:247-255 | Replacing a split face by its children keeps the live faces distinct and existing in the kernel. |
| FaceEdgeMap.OverlapRecordKeepsLive | main/src/Boolean/face_face.cc:132-257 | The whole overlap pass on a record keeps the live faces distinct and existing. |
| FaceEdgeMap.ApplyPlanGrows | main/src/Boolean/face_face.cc:197-253 | Acting on an overlap decision only adds faces to the kernel: every face it had stays, with the same loop. |
| FaceEdgeMap.OverlapStepGrows | main/src/Boolean/face_face.cc:133-257 | One turn of the chain loop keeps the record Live and only adds faces to the kernel. |
| FaceEdgeMap.OverlapRecordGrows | main/src/Boolean/face_face.cc:132-257 | The whole overlap pass on a record only adds faces to the kernel, keeping every old face's loop. |
| FaceEdgeMap.Search | main/src/Boolean/face_face.cc:484-496 | The scan over live faces and their boundary vertices returns the first path across a face, as its specification does. |
| FaceEdgeMap.SearchShape | main/src/Boolean/face_face.cc:484-496 | A found path starts at a boundary vertex of the live face it names and is a valid path across that face. |
| FaceEdgeMap.EraseSegments | main/src/Boolean/face_face.cc:529-531 | Erasing the path's segments leaves the other segments in order. |
| FaceEdgeMap.WithoutLength | main/src/Boolean/face_face.cc:529-531 | Erasing k distinct segments leaves exactly k fewer. |
| FaceEdgeMap.ReplaceFace | main/src/Boolean/face_face.cc:538-547 | The replacement loop gives the same list as its specification. |
| FaceEdgeMap.ReplaceOnce | main/src/Boolean/face_face.cc:538-547 | For distinct live faces, the split face's slot takes the first child and the other children are appended. |
| FaceEdgeMap.SplitOnce | main/src/Boolean/face_face.cc:480-548 | One worklist pass equals its specification, and the kernel then holds the record's shape. |
| FaceEdgeMap.ChainPassSplits | main/src/Boolean/face_face.cc:480-548 | A pass that finds no path changes only the segments' orientation. A pass that splits keeps the live faces valid and erases exactly the path's segments. |
| FaceEdgeMap.SplitFaceKeepsLive | main/src/Boolean/face_face.cc:536-547 | After a split the live faces stay distinct and existing. The split face's slot holds a new face, and the other slots are unchanged. |
| FaceEdgeMap.SplitRecordWithChains | main/src/Boolean/face_face.cc:480-548 | The worklist on one record equals its specification. |
| FaceEdgeMap.ChainsRecordKeepsLive | main/src/Boolean/face_face.cc:480-548 | The worklist keeps the live faces distinct and existing. |
| FaceEdgeMap.ChainsRecordKeepsOverlap | main/src/Boolean/face_face.cc:474-551 | The chain pass never changes the overlap list. |
| FaceEdgeMap.SplitFaceGrows | main/src/Boolean/face_face.cc:536-547 | Splitting a face along a path only adds faces to the kernel, keeping every old face's loop. |
| FaceEdgeMap.ChainPassGrows | main/src/Boolean/face_face.cc:480-548 | One worklist pass only adds faces to the kernel. |
| FaceEdgeMap.ChainsRecordGrows | main/src/Boolean/face_face.cc:480-548 | The worklist on a record only adds faces to the kernel, keeping every old face's loop. |
| FaceEdgeMap.StoreKeepsAllLive | main/src/Boolean/face_face.cc:128-129 | Writing back a Live record processed over a kernel that only grew keeps every record of both tables Live over the new kernel. |
| FaceEdgeMap.OverlapFromKeepsLive | main/src/Boolean/face_face.cc:126-259 | If every record of both tables is Live, the overlap pass over the tables, record after record, ends with every record Live over the kernel it leaves. |
| FaceEdgeMap.ChainsFromKeepsLive | main/src/Boolean/face_face.cc:476-550 | If every record of both tables is Live, the chain pass over the tables ends with every record Live over the kernel it leaves. |
| FaceEdgeMap.SplitAllKeepsLive | main/src/Boolean/face_face.cc:553-557 | split keeps every record Live through both passes. |
| FaceEdgeMap.FaceEdgeMap.constructor | main/src/Boolean/face_face.cc:76-77 | A new map has two empty tables. |
| FaceEdgeMap.FaceEdgeMap.AddFaceEdge | main/src/Boolean/face_face.cc:35-66 | add_face_edge always answers true. Only the chosen solid's table changes, as AddEdge says, and its key order gains the face. |
| FaceEdgeMap.FaceEdgeMap.InitMap | main/src/Boolean/face_face.cc:114-121 | Both tables become their initialised versions, and the key order is kept. |
| FaceEdgeMap.FaceEdgeMap.OverlapsOfFace | main/src/Boolean/face_face.cc:128-259 | Processing the n-th record of a table advances the overlap specification by one record, or reports its error. |
| FaceEdgeMap.FaceEdgeMap.OverlapsOfTable | main/src/Boolean/face_face.cc:126-259 | Processing a whole table advances the overlap specification to the next table, or reports its error. |
| FaceEdgeMap.FaceEdgeMap.SplitOverlapsOnBoundary | main/src/Boolean/face_face.cc:123-260 | Both tables, the kernel and the overlap lists end as the overlap specification says, or the method fails with its error. |
| FaceEdgeMap.FaceEdgeMap.ChainsOfFace | main/src/Boolean/face_face.cc:478-549 | Processing the n-th record advances the chain-pass specification by one record, or reports its error. |
| FaceEdgeMap.FaceEdgeMap.ChainsOfTable | main/src/Boolean/face_face.cc:476-550 | Processing a whole table advances the chain-pass specification to the next table, or reports its error. |
| FaceEdgeMap.FaceEdgeMap.SplitWithChains | main/src/Boolean/face_face.cc:474-551 | Both tables and the kernel end as the chain-pass specification says, the overlap lists are returned unchanged, or the method fails with its error. |
| FaceEdgeMap.FaceEdgeMap.Split | main/src/Boolean/face_face.cc:553-557 | split is the overlap pass followed by the chain pass: the state ends as their composition says, or the first error is reported. |
| FaceEdgeMap.QueueAsWrittenMisapplies | main/src/Boolean/face_face.cc:527-528 | As written, with two paths found in one scan, the back splitter is applied to both chain sets and the front one to none. |
| FaceVersus.SortedSetShape | main/src/Boolean/face_face.cc:18-27 | face_vertices holds exactly the new vertices and the boundary vertices, in strictly increasing order. |
| FaceVersus.FaceVertexSet | main/src/Boolean/face_face.cc:18-27 | Inserting the vertices one by one builds the sorted set. |
| FaceVersus.SetIntersection | main/src/Boolean/face_face.cc:96-99 | The merge of two increasing sets keeps, in order, exactly the elements of the first that are in the second. |
| FaceVersus.FilterShape | main/src/Boolean/face_face.cc:96-99 | The intersection is increasing and holds a vertex if and only if both sets hold it. |
| FaceVersus.CommonShape | main/src/Boolean/face_face.cc:90-99 | The common vertices of a pair are exactly those on both faces, counting new vertices, in increasing order. |
| FaceVersus.RegisterPair | main/src/Boolean/face_face.cc:100-104 | A pair with fewer than two common vertices registers nothing. Otherwise the chain is added to the first face in table 0 and to the second in table 1. |
| FaceVersus.RegisterFace | main/src/Boolean/face_face.cc:91-105 | The inner loop for one face of the first solid advances the collection to the next such face. |
| FaceVersus.CollectChains | main/src/Boolean/face_face.cc:87-106 | The pair loops build a fresh map whose tables are the collection of every pair. |
| FaceVersus.CollectShape | main/src/Boolean/face_face.cc:88-106 | Collection keeps every record free of live faces, and every chain increasing, of at least two vertices, all on its face. |
| FaceVersus.IntersectStartsLive | main/src/Boolean/face_face.cc:88-121 | After collection and init_map, each record belongs to a face of its own solid, its live-face list is that face, and every chain has at least two vertices. When the kernel numbers faces freshly and both solids' faces are kernel faces, every record satisfies the passes' Live invariant over the kernel before any split. |
| FaceVersus.IntersectKeepsLive | main/src/Boolean/face_face.cc:83-110 | Under the same conditions, when face_intersect succeeds every record of both tables is Live over the kernel it leaves. This holds because each step of both passes keeps every record Live as the kernel grows. |
| FaceVersus.FaceIntersect | main/src/Boolean/face_face.cc:83-110 | face_intersect is collect, then init_map, then split, from the kernel's state before the call. On success it returns the updated overlap lists and the kernel holds exactly the faces the split leaves. Otherwise it reports the first fatal error. |

## Left out

- Floating point: vectors are exact reals. The plane fit, polygon normal,
  vertex positions and point-in-polygon classification are oracles, as is
  `make_polygonal_face(...)->normal()`. Their algorithms (Geo/*.cc) are not
  part of this model.
- The topology kernel's face splitter (`Topo::Split`) and path repair
  (`Topo::connect_entities`) are oracles in `Kernel`. Only the face loops
  and the fresh-identity counter of the kernel's state are modelled.
- Topology.SplitKeepsFaces: the model assumes that the unseen `Topo::Split`
  numbers its children with fresh identities. It also assumes the split
  face's own loop stays in the kernel unchanged. The property rests on both
  assumptions.
- Overlap.Connections: every `connect_entities` call in the loop at lines
  222-227 is given the same pool, the chain copy left by the scan. This
  assumes the unseen callee does not remove vertices from `edge_set_copy`.
- Overlap.Interior: a repaired path of fewer than two vertices is assumed
  not to occur. For such a path `[next(begin), prev(end))` at lines 228-229
  and 241-242 is undefined behaviour. The model gives an empty interior.
- Iteration order of maps and sets keyed by pointers (`std::map`,
  `std::set` of face and vertex wrappers) is modelled as the order of the
  integer identities.
- `f_vert_info_` and `overlap_faces_` are parameters, and the two face
  iterators are given as sequences. The `bool` that face_intersect always
  returns is not modelled. The result is instead `Ok` with the overlap
  lists, or the first fatal error.
- State after a fatal error: the source throws and abandons the map. By
  then the shared kernel may already hold faces split earlier in the same
  call. For example, a `DegenerateSplit` may follow a kernel split, and a
  chain-pass error may follow the whole overlap pass. The members below
  state only the error on failure, not the tables or the kernel left
  behind.
- FaceEdgeMap.ActOnPlan: on failure only the error is stated, not the kernel state.
- FaceEdgeMap.SplitRecordOverlaps: on failure only the error is stated, not the kernel state.
- FaceEdgeMap.SplitOnce: on failure only the error is stated, not the kernel state.
- FaceEdgeMap.SplitRecordWithChains: on failure only the error is stated, not the kernel state.
- FaceEdgeMap.FaceEdgeMap.OverlapsOfFace: on failure only the error is stated, not the tables or the kernel.
- FaceEdgeMap.FaceEdgeMap.OverlapsOfTable: on failure only the error is stated, not the tables or the kernel.
- FaceEdgeMap.FaceEdgeMap.SplitOverlapsOnBoundary: on failure only the error is stated, not the tables or the kernel.
- FaceEdgeMap.FaceEdgeMap.ChainsOfFace: on failure only the error is stated, not the tables or the kernel.
- FaceEdgeMap.FaceEdgeMap.ChainsOfTable: on failure only the error is stated, not the tables or the kernel.
- FaceEdgeMap.FaceEdgeMap.SplitWithChains: on failure only the error is stated, not the tables or the kernel.
- FaceEdgeMap.FaceEdgeMap.Split: on failure only the error is stated, not the tables or the kernel.
- FaceVersus.FaceIntersect: on failure only the error is stated, not the kernel state.
- FaceEdgeMap.ApplyPlan: when the face splitter produces no face, the
  overlap pass reads `new_faces[0]` unchecked (line 250), which is
  undefined behaviour. The model reports the same `DegenerateSplit` error
  that the chain pass raises at line 544.
- FaceEdgeMap.EraseSegments: `std::sort` followed by a reverse walk of
  erases is modelled as one scan that keeps the segments not on the path.
  The resulting list is the same.
- Ambiguity.Sample: the single-vertex branch of lines 442-447 cannot be
  taken, because every sub-loop has at least two vertices
  (Ambiguity.PiecesShape). The model therefore takes the second vertex.
- FaceEdgeMap.ChainPass: the main line uses the corrected worklist, which
  makes one split per pass (see Findings).
- Ambiguity.Resolve: the main line uses the corrected placement and
  rewrite, and recomputes positions for the second pass (see Findings).
- The `UnitTest` sources and the rest of the boolean operation (`Geo`,
  `Topo` internals) are not part of this model.

## Findings

| source | as written | input that shows it | evidently intended | confidence | as-written member | corrected member |
|---|---|---|---|---|---|---|
| main/src/Boolean/face_face.cc:455 | The containing external loop is moved onto the end of its own list. The internal loop is never added, so its vertices are lost and an empty loop is left in the external loop's place. | One external loop [1,3,1] and internal loop [1,2,1]: vertex 2 is missing from the result. | Append the internal loop to the containing external loop. | not executed | Ambiguity.PlaceAsWrittenDropsInternal | Ambiguity.PlaceKeepsVertices |
| main/src/Boolean/face_face.cc:463-470 | Every split chain is cleared and rebuilt from its external sub-loops, including chains in which the vertex occurs less than twice and which have no sub-loops. | Chains [[1,2,1,3],[4,5]] at vertex 1: the second chain becomes empty. | Rewrite only the chains that were cut into sub-loops. | not executed | Ambiguity.RewriteAsWrittenClears | Ambiguity.ResolveVertexKeepsUnrepeated |
| main/src/Boolean/face_face.cc:396-406 | The positions of both test vertices are computed before the first pass rewrites the chains. The second pass then cuts at stale positions. | Chains [[1,2,1,4,3,4],[4,1]]: after the pass for 1, vertex 4 sits at positions 1 and 3, not the recorded 3 and 5. | Recompute the positions of each test vertex on the chains its pass receives. | not executed | Ambiguity.StalePositions | Ambiguity.ResolveAmbiguities |
| main/src/Boolean/face_face.cc:527-528 | Each found path puts a new splitter at the front of the list but applies its chains to the splitter at the back. | Two paths found in one scan: the front splitter, which the replacement loop at lines 538-547 reads, was never applied, and its face has no new faces. | Apply each path's chains to the splitter made for its face. The corrected model makes one split per pass: it stops at the first path found, splits that face, erases the path's segments and scans again. | not executed | FaceEdgeMap.QueueAsWrittenMisapplies | FaceEdgeMap.ChainPassSplits |
