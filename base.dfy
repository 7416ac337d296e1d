// Shared vocabulary of the face-splitting core: vertex and face identities,
// the error kinds the core throws, exact vectors, the geometry oracles the
// core consults, and small sequence operations.
module Base {

  /** Vertices and faces are compared by identity only, never by position. */
  type Vertex = int
  type FaceId = int

  datatype Option<T> = None | Some(value: T)

  /** A value, or the fatal condition that aborted its computation. */
  datatype Result<T> = Ok(value: T) | Fail(error: Error)

  /** The fatal conditions of the core (every THROW_IF in face_face.cc). */
  datatype Error =
    | MalformedOverlapWitness   // no not-common run, yet the chain copy is not exhausted
    | UnrepairablePath          // connect_entities could not join a common run
    | DegenerateSplit           // the face splitter produced no face
    | UnlocatedInternalLoop     // no external loop contains an internal loop

  // ---------------------------------------------------------------------------
  // Vectors (exact reals: the source uses doubles)

  datatype Vec = Vec(x: real, y: real, z: real)

  const Origin := Vec(0.0, 0.0, 0.0)

  function Dot(a: Vec, b: Vec): real
  {
    a.x * b.x + a.y * b.y + a.z * b.z
  }

  /** The opposite vector: every dot product changes sign. */
  function Neg(a: Vec): (r: Vec)
    ensures forall b :: Dot(b, r) == -Dot(b, a)
  {
    Vec(-a.x, -a.y, -a.z)
  }

  /** `(p + q) * 0.5`, the sample point taken on a single edge. */
  function Midpoint(p: Vec, q: Vec): Vec
  {
    Vec((p.x + q.x) * 0.5, (p.y + q.y) * 0.5, (p.z + q.z) * 0.5)
  }

  // ---------------------------------------------------------------------------
  // Geometry oracles

  datatype Classification = Inside | Outside | On

  /** The geometric services the core calls but does not implement:
      `position` is vert->geom, `planeFitNormal` the normal IPlaneFit::compute
      returns for a point set, `polygonNormal` IPolygonalFace::normal, and
      `classify` PointInPolygon::classify (polygon, point, optional normal). */
  datatype Geometry = Geometry(
    position: Vertex -> Vec,
    planeFitNormal: seq<Vec> -> Vec,
    polygonNormal: seq<Vec> -> Vec,
    classify: (seq<Vec>, Vec, Option<Vec>) -> Classification)

  /** The positions of a loop's vertices, in loop order. */
  function Points(g: Geometry, loop: seq<Vertex>): (pts: seq<Vec>)
    ensures |pts| == |loop|
    ensures forall i :: 0 <= i < |loop| ==> pts[i] == g.position(loop[i])
  {
    seq(|loop|, i requires 0 <= i < |loop| => g.position(loop[i]))
  }

  /** The point list point_in_polygon hands to the classifier: it resizes the
      list to n points and then appends the n positions, so n origin points
      lead the polygon. */
  function PaddedPolygon(g: Geometry, loop: seq<Vertex>): (pts: seq<Vec>)
    ensures |pts| == 2 * |loop|
    ensures forall i :: 0 <= i < |loop| ==> pts[i] == Origin && pts[|loop| + i] == g.position(loop[i])
  {
    seq(|loop|, _ => Origin) + Points(g, loop)
  }

  /** The canonical normal of a face: the plane-fit normal, flipped when it
      disagrees with the normal of the polygon through the same points. */
  function CanonicalNormal(g: Geometry, loop: seq<Vertex>): (n: Vec)
    ensures Dot(g.polygonNormal(Points(g, loop)), n) >= 0.0
    ensures n == g.planeFitNormal(Points(g, loop)) || n == Neg(g.planeFitNormal(Points(g, loop)))
  {
    var pts := Points(g, loop);
    var fit := g.planeFitNormal(pts);
    if Dot(g.polygonNormal(pts), fit) < 0.0 then Neg(fit) else fit
  }

  // ---------------------------------------------------------------------------
  // Sequences

  /** std::find: the first position holding v, or |s| when there is none. */
  function IndexOf<T(==)>(s: seq<T>, v: T): (i: nat)
    ensures i <= |s|
    ensures i < |s| ==> s[i] == v
    ensures forall j :: 0 <= j < i ==> s[j] != v
    ensures i == |s| <==> v !in s
  {
    if s == [] then 0
    else if s[0] == v then 0
    else 1 + IndexOf(s[1..], v)
  }

  /** Erasing the first occurrence of v (std::find followed by erase). */
  function RemoveFirst<T(==)>(s: seq<T>, v: T): (r: seq<T>)
    ensures v in s ==> |r| == |s| - 1 && multiset(r) == multiset(s) - multiset{v}
    ensures v !in s ==> r == s
  {
    var i := IndexOf(s, v);
    if i == |s| then s
    else
      assert s == s[..i] + [s[i]] + s[i + 1..];
      s[..i] + s[i + 1..]
  }

  /** The concatenation of a list of vertex runs. */
  function Concat<T>(ss: seq<seq<T>>): seq<T>
  {
    if ss == [] then [] else Concat(ss[..|ss| - 1]) + ss[|ss| - 1]
  }

  lemma {:induction false} ConcatAppend<T>(ss: seq<seq<T>>, tt: seq<seq<T>>)
    ensures Concat(ss + tt) == Concat(ss) + Concat(tt)
    decreases |tt|
  {
    if tt == [] {
      assert ss + tt == ss;
    } else {
      var n := |tt| - 1;
      assert (ss + tt)[..|ss + tt| - 1] == ss + tt[..n];
      ConcatAppend(ss, tt[..n]);
    }
  }

  lemma ConcatSingle<T>(s: seq<T>)
    ensures Concat([s]) == s
  {
    assert [s][..0] == [];
  }

  lemma ConcatCons<T>(s: seq<T>, ss: seq<seq<T>>)
    ensures Concat([s] + ss) == s + Concat(ss)
  {
    ConcatAppend([s], ss);
    ConcatSingle(s);
  }

  /** The loop read from position k on, wrapping around. */
  function Rotate<T>(s: seq<T>, k: nat): seq<T>
    requires k <= |s|
  {
    s[k..] + s[..k]
  }

  function Reverse<T>(s: seq<T>): (r: seq<T>)
    ensures |r| == |s|
    ensures forall i :: 0 <= i < |s| ==> r[i] == s[|s| - 1 - i]
  {
    if s == [] then [] else Reverse(s[1..]) + [s[0]]
  }

  lemma ReverseMultiset<T>(s: seq<T>)
    ensures multiset(Reverse(s)) == multiset(s)
  {
    if s != [] {
      ReverseMultiset(s[1..]);
      assert s == [s[0]] + s[1..];
    }
  }
}
