// The part of the topology kernel the core uses: the boundary loop of each
// face, the generic face splitter (Topo::Split) and the path repair helper
// (Topo::connect_entities). The kernel's own algorithms are not part of this
// model: what they return is given by the oracles in `Kernel`.
module Topology {
  import opened Base

  /** `split(face, loop, chains)` is the list of child loops Topo::Split
      produces when `face` (whose boundary is `loop`) is split along `chains`;
      `connect(from, to, pool)` is the vertex path connect_entities returns
      between `from` and `to` using the vertices in `pool`, or None when it
      reports failure. */
  datatype Kernel = Kernel(
    split: (FaceId, seq<Vertex>, seq<seq<Vertex>>) -> seq<seq<Vertex>>,
    connect: (Vertex, Vertex, seq<Vertex>) -> Option<seq<Vertex>>)

  /** The part of the kernel's state the core reads and changes: the
      boundary loop of every face and the next fresh face identity. */
  datatype Shape = Shape(loops: map<FaceId, seq<Vertex>>, nextFace: FaceId)

  /** Topo::Iterator<FACE, VERTEX>: the boundary vertices of a face. */
  function LoopOf(sh: Shape, f: FaceId): seq<Vertex>
  {
    if f in sh.loops then sh.loops[f] else []
  }

  /** Every existing face has an identity below the next fresh one. */
  ghost predicate Fresh(sh: Shape)
  {
    forall f :: f in sh.loops ==> f < sh.nextFace
  }

  /** The children a split of `face` along `chains` creates: one fresh face per
      loop the kernel returns, numbered from the next fresh identity. */
  function SplitShape(k: Kernel, sh: Shape, face: FaceId, chains: seq<seq<Vertex>>): (r: (Shape, seq<FaceId>))
  {
    var pieces := k.split(face, LoopOf(sh, face), chains);
    var children := seq(|pieces|, i requires 0 <= i < |pieces| => sh.nextFace + i);
    (AddFaces(sh, pieces), children)
  }

  /** The shape with one fresh face per loop, in order. */
  function AddFaces(sh: Shape, pieces: seq<seq<Vertex>>): Shape
    decreases |pieces|
  {
    if pieces == [] then sh
    else AddFaces(Shape(sh.loops[sh.nextFace := pieces[0]], sh.nextFace + 1), pieces[1..])
  }

  lemma {:induction false} AddFacesShape(sh: Shape, pieces: seq<seq<Vertex>>)
    ensures var sh' := AddFaces(sh, pieces);
      && sh'.nextFace == sh.nextFace + |pieces|
      && (forall i :: 0 <= i < |pieces| ==> LoopOf(sh', sh.nextFace + i) == pieces[i])
      && (forall f :: f in sh'.loops <==> f in sh.loops || sh.nextFace <= f < sh.nextFace + |pieces|)
      && (forall f :: f in sh.loops && !(sh.nextFace <= f < sh.nextFace + |pieces|) ==> sh'.loops[f] == sh.loops[f])
    decreases |pieces|
  {
    if pieces != [] {
      var sh1 := Shape(sh.loops[sh.nextFace := pieces[0]], sh.nextFace + 1);
      AddFacesShape(sh1, pieces[1..]);
      forall i | 0 <= i < |pieces|
        ensures LoopOf(AddFaces(sh, pieces), sh.nextFace + i) == pieces[i]
      {
        if i > 0 {
          assert pieces[1..][i - 1] == pieces[i];
        }
      }
    }
  }

  /** A split creates only fresh faces, gives each child the loop the kernel
      built for it and leaves every existing face as it was. */
  lemma SplitKeepsFaces(k: Kernel, sh: Shape, face: FaceId, chains: seq<seq<Vertex>>)
    requires Fresh(sh)
    ensures var (sh', children) := SplitShape(k, sh, face, chains);
      var pieces := k.split(face, LoopOf(sh, face), chains);
      && Fresh(sh')
      && |children| == |pieces|
      && (forall i :: 0 <= i < |children| ==> children[i] !in sh.loops && LoopOf(sh', children[i]) == pieces[i])
      && (forall i, j :: 0 <= i < j < |children| ==> children[i] != children[j])
      && (forall f :: f in sh.loops ==> LoopOf(sh', f) == LoopOf(sh, f))
      && (forall f :: f in sh'.loops ==> f in sh.loops || f in children)
  {
    var pieces := k.split(face, LoopOf(sh, face), chains);
    var sh' := AddFaces(sh, pieces);
    var children := SplitShape(k, sh, face, chains).1;
    AddFacesShape(sh, pieces);
    assert forall i :: 0 <= i < |children| ==> children[i] == sh.nextFace + i;
    forall f | f in sh'.loops && f !in sh.loops
      ensures f in children
    {
      assert children[f - sh.nextFace] == f;
    }
  }

  class Topology {
    var loops: map<FaceId, seq<Vertex>>
    var nextFace: FaceId
    const kernel: Kernel

    /** The kernel's state as a value. */
    function Current(): Shape
      reads this
    {
      Shape(loops, nextFace)
    }

    ghost predicate Valid()
      reads this
    {
      Fresh(Current())
    }

    function Loop(f: FaceId): seq<Vertex>
      reads this
    {
      LoopOf(Current(), f)
    }

    constructor (initial: map<FaceId, seq<Vertex>>, firstFree: FaceId, kernel: Kernel)
      requires forall f :: f in initial ==> f < firstFree
      ensures Valid()
      ensures loops == initial && nextFace == firstFree && this.kernel == kernel
    {
      loops := initial;
      nextFace := firstFree;
      this.kernel := kernel;
    }

    /** Topo::Split<FACE>: splits `face` along `chains`; every child loop the
        kernel produces becomes a new face with a fresh identity. */
    method Split(face: FaceId, chains: seq<seq<Vertex>>) returns (children: seq<FaceId>)
      modifies this
      ensures (Current(), children) == SplitShape(kernel, old(Current()), face, chains)
    {
      var pieces := kernel.split(face, Loop(face), chains);
      ghost var sh := Current();
      children := [];
      var k := 0;
      while k < |pieces|
        invariant 0 <= k <= |pieces|
        invariant |children| == k && nextFace == sh.nextFace + k
        invariant forall m :: 0 <= m < k ==> children[m] == sh.nextFace + m
        invariant AddFaces(Current(), pieces[k..]) == AddFaces(sh, pieces)
      {
        assert pieces[k..][1..] == pieces[k + 1..];
        loops := loops[nextFace := pieces[k]];
        children := children + [nextFace];
        nextFace := nextFace + 1;
        k := k + 1;
      }
      assert pieces[k..] == [];
      assert children == seq(|pieces|, i requires 0 <= i < |pieces| => sh.nextFace + i);
    }
  }
}
