/**
 * The unit test of the neighbourhood: two tetrahedra that share one face, registered
 * one after the other, the neighbours that `get_neighbor` then reports, and the
 * slots that the stitching pass writes.
 */
module NeighborhoodScenarios {
  import opened Wrappers
  import opened Tetrahedra
  import opened FaceIndex

  /** A tetrahedron with the given nodes and no neighbours yet. */
  function Tetra(a: nat, b: nat, c: nat, d: nat): (t: Tetrahedron)
    ensures t.nodes == [a, b, c, d]
    ensures forall k :: 0 <= k < 4 ==> t.neighbors[k].None?
  {
    Tetrahedron([a, b, c, d], [None, None, None, None])
  }

  /** The two tetrahedra of the unit test: they share the face `(1, 2, 3)`. */
  function Pair(): seq<Tetrahedron> {
    [Tetra(0, 1, 2, 3), Tetra(1, 2, 3, 4)]
  }

  function FirstOnly(): map<Face, Owners> {
    var a := Owners(Some(0), None);
    map[Face(0, 1, 2) := a, Face(1, 2, 3) := a, Face(0, 2, 3) := a, Face(0, 1, 3) := a]
  }

  function Both(): map<Face, Owners> {
    var b := Owners(Some(1), None);
    FirstOnly()[Face(1, 2, 3) := Owners(Some(0), Some(1))][Face(2, 3, 4) := b][Face(1, 3, 4) := b][Face(1, 2, 4) := b]
  }

  lemma {:induction false} RegisterFirstOfPair()
    ensures RegisterFaces(Empty, FaceKeys(Pair()[0]), 0) == Ok(Index(FirstOnly(), 3))
  {
    var k0 := FaceKeys(Pair()[0]);
    var a := Owners(Some(0), None);
    assert k0 == [Face(0, 1, 2), Face(1, 2, 3), Face(0, 2, 3), Face(0, 1, 3)];
    assert k0[..1][..0] == [] && k0[..2][..1] == k0[..1] && k0[..3][..2] == k0[..2] && k0[..4][..3] == k0[..3];
    var i1 := Index(map[Face(0, 1, 2) := a], 2);
    var i2 := Index(i1.faces[Face(1, 2, 3) := a], 3);
    var i3 := Index(i2.faces[Face(0, 2, 3) := a], 3);
    assert RegisterFaces(Empty, k0[..1], 0) == Ok(i1);
    assert RegisterFaces(Empty, k0[..2], 0) == Ok(i2);
    assert RegisterFaces(Empty, k0[..3], 0) == Ok(i3);
    assert k0[..4] == k0;
  }

  lemma {:induction false} RegisterSecondOfPair()
    ensures RegisterFaces(Index(FirstOnly(), 3), FaceKeys(Pair()[1]), 1) == Ok(Index(Both(), 4))
  {
    var k1 := FaceKeys(Pair()[1]);
    var b := Owners(Some(1), None);
    assert k1 == [Face(1, 2, 3), Face(2, 3, 4), Face(1, 3, 4), Face(1, 2, 4)];
    assert k1[..1][..0] == [] && k1[..2][..1] == k1[..1] && k1[..3][..2] == k1[..2] && k1[..4][..3] == k1[..3];
    var i1 := Index(FirstOnly()[Face(1, 2, 3) := Owners(Some(0), Some(1))], 3);
    var i2 := Index(i1.faces[Face(2, 3, 4) := b], 4);
    var i3 := Index(i2.faces[Face(1, 3, 4) := b], 4);
    assert RegisterFaces(Index(FirstOnly(), 3), k1[..1], 1) == Ok(i1);
    assert RegisterFaces(Index(FirstOnly(), 3), k1[..2], 1) == Ok(i2);
    assert RegisterFaces(Index(FirstOnly(), 3), k1[..3], 1) == Ok(i3);
    assert k1[..4] == k1;
  }

  lemma {:induction false} TwoTetrahedra()
    ensures RegisterAll(Pair()) == Ok(Index(Both(), 4))
    ensures var ix := Index(Both(), 4);
      Neighbor(ix, Sort3(0, 1, 2), 0) == Ok(None) &&
      Neighbor(ix, Sort3(1, 2, 3), 0) == Ok(Some(1)) &&
      Neighbor(ix, Sort3(2, 3, 0), 0) == Ok(None) &&
      Neighbor(ix, Sort3(3, 0, 1), 0) == Ok(None) &&
      Neighbor(ix, Sort3(3, 2, 1), 0) == Ok(Some(1)) &&
      Neighbor(ix, Sort3(1, 2, 3), 1) == Ok(Some(0)) &&
      Neighbor(ix, Sort3(2, 3, 4), 1) == Ok(None) &&
      Neighbor(ix, Sort3(3, 4, 1), 1) == Ok(None) &&
      Neighbor(ix, Sort3(4, 1, 2), 1) == Ok(None)
  {
    var es := Pair();
    assert es[..1] == [es[0]] && es[..1][..0] == [] && es[..2] == es;
    RegisterFirstOfPair();
    assert RegisterAll(es[..1]) == Ok(Index(FirstOnly(), 3));
    RegisterSecondOfPair();
  }

  /** Stitching the pair links slot 1 of the first tetrahedron, face `(1, 2, 3)`, with the second one. */
  lemma {:induction false} StitchedFirstOfPair()
    ensures Stitched(Pair(), Both())[0] == Tetrahedron([0, 1, 2, 3], [None, Some(1), None, None])
  {
    var es := Pair();
    TwoTetrahedra();
    var s := Stitched(es, Both());
    assert FaceKey(es[0], 1) == Face(1, 2, 3);
    StitchedSlotMatchesNeighbor(es, 0, 0);
    StitchedSlotMatchesNeighbor(es, 0, 1);
    StitchedSlotMatchesNeighbor(es, 0, 2);
    StitchedSlotMatchesNeighbor(es, 0, 3);
    assert s[0].neighbors == [None, Some(1), None, None];
  }

  /** Stitching the pair links slot 0 of the second tetrahedron, face `(1, 2, 3)`, with the first one. */
  lemma {:induction false} StitchedSecondOfPair()
    ensures Stitched(Pair(), Both())[1] == Tetrahedron([1, 2, 3, 4], [Some(0), None, None, None])
  {
    var es := Pair();
    TwoTetrahedra();
    var s := Stitched(es, Both());
    assert FaceKey(es[1], 0) == Face(1, 2, 3);
    StitchedSlotMatchesNeighbor(es, 1, 0);
    StitchedSlotMatchesNeighbor(es, 1, 1);
    StitchedSlotMatchesNeighbor(es, 1, 2);
    StitchedSlotMatchesNeighbor(es, 1, 3);
    assert s[1].neighbors == [Some(0), None, None, None];
  }

  /**
   * `teach_triangles_of_neighborhood` on the pair: slot 1 of the first tetrahedron
   * and slot 0 of the second point at each other, every other slot stays empty.
   */
  lemma {:induction false} StitchedPair()
    ensures RegisterAll(Pair()).Ok?
    ensures Stitched(Pair(), RegisterAll(Pair()).value.faces) ==
      [Tetrahedron([0, 1, 2, 3], [None, Some(1), None, None]), Tetrahedron([1, 2, 3, 4], [Some(0), None, None, None])]
  {
    TwoTetrahedra();
    StitchedFirstOfPair();
    StitchedSecondOfPair();
  }
}
