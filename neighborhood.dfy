/**
 * `Triangulation3Neighborhood`: the face-adjacency builder.  The object owns the
 * three-level store of `Buckets`; its ghost field `faces` is the abstract map of
 * `FaceIndex`, and `Valid` ties the two together, so that every method can be
 * specified by the functions of `FaceIndex`.
 */
module Neighborhood {
  import opened Wrappers
  import opened Tetrahedra
  import opened FaceIndex
  import opened Buckets

  class Triangulation3Neighborhood {
    var triangleNeighborhood: Store
    ghost var faces: map<Face, Owners>

    /** The store is well formed and finds, for every key, exactly the owners in `faces`. */
    ghost predicate Valid()
      reads this
    {
      WellFormed(triangleNeighborhood) &&
      Invariant(Abs()) &&
      forall f :: Lookup(triangleNeighborhood, f) == Get(faces, f)
    }

    /** The abstract state: the recorded owners and the number of buckets. */
    ghost function Abs(): Index
      reads this
    {
      Index(faces, |triangleNeighborhood|)
    }

    /** `new`: no buckets and no faces. */
    constructor ()
      ensures Valid() && Abs() == Empty
    {
      triangleNeighborhood := [];
      faces := map[];
    }

    /**
     * Installs the store `b'`, which differs from the current one only in the
     * record of `f`, now `o`: the single write with which `register_connection` ends.
     */
    method Commit(b': Store, ghost f: Face, ghost o: Owners)
      requires Valid() && WellFormed(b') && |b'| == |triangleNeighborhood|
      requires f.smaller < |triangleNeighborhood| && o.first.Some?
      requires forall g :: Lookup(b', g) == if g == f then Some(o) else Lookup(triangleNeighborhood, g)
      modifies this
      ensures Valid() && triangleNeighborhood == b' && faces == old(faces)[f := o]
    {
      UpdateRefines(triangleNeighborhood, b', faces, f, o);
      triangleNeighborhood, faces := b', faces[f := o];
    }

    /**
     * `register_connection`: records `tetraIndex` as an owner of the face with the
     * given nodes; a panic of the source is reported as `Failed`.
     */
    method RegisterConnection(p1: nat, p2: nat, p3: nat, tetraIndex: nat) returns (st: Status)
      requires Valid()
      modifies this
      ensures Valid()
      ensures st == StatusOf(Register(old(Abs()), Sort3(p1, p2, p3), tetraIndex))
      ensures st.Done? ==> Abs() == Register(old(Abs()), Sort3(p1, p2, p3), tetraIndex).value
      ensures st.Failed? ==> faces == old(faces)
    {
      var f := Sort3(p1, p2, p3);
      var smaller, medium, larger := f.smaller, f.medium, f.larger;
      if |triangleNeighborhood| < larger {
        GrowKeepsLookups(triangleNeighborhood, larger - |triangleNeighborhood|);
        triangleNeighborhood := triangleNeighborhood + seq(larger - |triangleNeighborhood|, _ => []);
      }
      if smaller >= |triangleNeighborhood| {
        return Failed(IndexOutOfBounds);
      }
      var v := triangleNeighborhood[smaller];
      assert BucketWellFormed(v);
      var i := 0;
      while i < |v|
        invariant 0 <= i <= |v|
        invariant forall i' :: 0 <= i' < i ==> v[i'].medium != medium
      {
        if v[i].medium == medium {
          var entries := v[i].entries;
          var j := 0;
          while j < |entries|
            invariant 0 <= j <= |entries|
            invariant forall j' :: 0 <= j' < j ==> entries[j'].largest != larger
          {
            if entries[j].largest == larger {
              var o := entries[j].owners;
              assert MediumIndex(v, medium) == Some(i);
              assert EntryIndex(entries, larger) == Some(j);
              assert Get(faces, f) == Some(o);
              if o.first.None? || o.second.Some? {
                return Failed(if o.first.None? then MissingFirstOwner else ThirdOwner);
              }
              var o' := o.(second := Some(tetraIndex));
              SetOwnersAt(triangleNeighborhood, smaller, i, j, o');
              Commit(triangleNeighborhood[smaller := v[i := v[i].(entries := entries[j := Entry(larger, o')])]], f, o');
              return Done;
            }
            j := j + 1;
          }
          assert MediumIndex(v, medium) == Some(i);
          assert EntryIndex(entries, larger).None?;
          assert Get(faces, f).None?;
          AppendEntryAt(triangleNeighborhood, smaller, i, larger, Owners(Some(tetraIndex), None));
          Commit(triangleNeighborhood[smaller := v[i := v[i].(entries := entries + [Entry(larger, Owners(Some(tetraIndex), None))])]],
            f, Owners(Some(tetraIndex), None));
          return Done;
        }
        i := i + 1;
      }
      assert MediumIndex(v, medium).None?;
      assert Get(faces, f).None?;
      AppendMediumAt(triangleNeighborhood, smaller, medium, larger, Owners(Some(tetraIndex), None));
      Commit(triangleNeighborhood[smaller := v + [MediumBucket(medium, [Entry(larger, Owners(Some(tetraIndex), None))])]],
        f, Owners(Some(tetraIndex), None));
      return Done;
    }

    /** `register_tetrahedron`: registers the four faces of `tetra`, in slot order. */
    method RegisterTetrahedron(tetra: Tetrahedron, tetraIndex: nat) returns (st: Status)
      requires Valid()
      modifies this
      ensures Valid()
      ensures st == StatusOf(RegisterFaces(old(Abs()), FaceKeys(tetra), tetraIndex))
      ensures st.Done? ==> Abs() == RegisterFaces(old(Abs()), FaceKeys(tetra), tetraIndex).value
    {
      var tuples := FacesAsIndicesTuples(tetra);
      var k := 0;
      while k < 4
        invariant 0 <= k <= 4 && Valid()
        invariant RegisterFaces(old(Abs()), FaceKeys(tetra)[..k], tetraIndex) == Ok(Abs())
      {
        var (a, b, c) := tuples[k];
        ghost var prev := Abs();
        st := RegisterConnection(a, b, c, tetraIndex);
        assert FaceKeys(tetra)[..k + 1][..k] == FaceKeys(tetra)[..k];
        assert FaceKeys(tetra)[..k + 1][k] == Sort3(a, b, c);
        assert RegisterFaces(old(Abs()), FaceKeys(tetra)[..k + 1], tetraIndex) == Register(prev, Sort3(a, b, c), tetraIndex);
        if st.Failed? {
          RegisterFacesFailurePersists(old(Abs()), FaceKeys(tetra), tetraIndex, k + 1);
          return;
        }
        k := k + 1;
      }
      assert FaceKeys(tetra)[..4] == FaceKeys(tetra);
      st := Done;
    }

    /**
     * `get_neighbor`: the owner of the face with the given nodes other than
     * `tetraIndex`; a missing bucket is the source's out-of-range panic.
     */
    method GetNeighbor(p1: nat, p2: nat, p3: nat, tetraIndex: nat) returns (r: Result<Option<nat>>)
      requires Valid()
      ensures r == Neighbor(Abs(), Sort3(p1, p2, p3), tetraIndex)
    {
      var f := Sort3(p1, p2, p3);
      var smaller, medium, larger := f.smaller, f.medium, f.larger;
      if smaller >= |triangleNeighborhood| {
        return Err(IndexOutOfBounds);
      }
      var v := triangleNeighborhood[smaller];
      assert BucketWellFormed(v);
      var i := 0;
      while i < |v|
        invariant 0 <= i <= |v|
        invariant forall i' :: 0 <= i' < i ==> v[i'].medium != medium || EntryIndex(v[i'].entries, larger).None?
      {
        if v[i].medium == medium {
          var entries := v[i].entries;
          var j := 0;
          while j < |entries|
            invariant 0 <= j <= |entries|
            invariant forall j' :: 0 <= j' < j ==> entries[j'].largest != larger
          {
            if entries[j].largest == larger {
              var e := entries[j].owners;
              assert MediumIndex(v, medium) == Some(i);
              assert EntryIndex(entries, larger) == Some(j);
              assert Get(faces, f) == Some(e);
              if e.first == Some(tetraIndex) {
                return Ok(e.second);
              } else {
                return Ok(e.first);
              }
            }
            j := j + 1;
          }
        }
        i := i + 1;
      }
      assert Get(faces, f) == Lookup(triangleNeighborhood, f);
      return Ok(None);
    }

    /**
     * The two writes of `teach_triangles_of_neighborhood` for one shared face: the
     * slot of the face in `t1` gets `t2`, then the slot of the face in `t2` gets `t1`.
     */
    static method LinkOwners(elements: array<Tetrahedron>, smaller: nat, medium: nat, largest: nat, t1: nat, t2: nat)
      requires t1 < elements.Length && t2 < elements.Length
      requires Face(smaller, medium, largest).Sorted()
      requires Face(smaller, medium, largest) in FaceKeys(elements[t1]) && Face(smaller, medium, largest) in FaceKeys(elements[t2])
      modifies elements
      ensures elements[..] == LinkFace(old(elements[..]), Face(smaller, medium, largest), t1, t2)
    {
      var el1 := elements[t1];
      var neighborIndex := GetNeighborIndex(el1, smaller, medium, largest);
      elements[t1] := SetNeighbor(el1, neighborIndex, Some(t2));
      var el2 := elements[t2];
      neighborIndex := GetNeighborIndex(el2, smaller, medium, largest);
      elements[t2] := SetNeighbor(el2, neighborIndex, Some(t1));
    }

    /**
     * One step of the traversal of `teach_triangles_of_neighborhood`: the record at
     * position `(s, i, j)` of the store links its two owners, if it has two.
     */
    method LinkEntry(elements: array<Tetrahedron>, ghost es: seq<Tetrahedron>, ghost done: set<Face>, s: nat, i: nat, j: nat)
      requires Valid() && |es| == elements.Length && Sound(es, |es|, faces)
      requires s < |triangleNeighborhood| && i < |triangleNeighborhood[s]| && j < |triangleNeighborhood[s][i].entries|
      requires KeyAt(triangleNeighborhood, s, i, j) !in done
      requires elements[..] == StitchedOver(es, faces, done)
      modifies elements
      ensures elements[..] == StitchedOver(es, faces, done + {KeyAt(triangleNeighborhood, s, i, j)})
    {
      var bucket := triangleNeighborhood[s][i];
      var mediumIndex := bucket.medium;
      var largestIndex := bucket.entries[j].largest;
      var o := bucket.entries[j].owners;
      ghost var g := KeyAt(triangleNeighborhood, s, i, j);
      LookupAt(triangleNeighborhood, s, i, j);
      assert Get(faces, g) == Some(o);
      if o.first.Some? && o.second.Some? {
        var t1, t2 := o.first.value, o.second.value;
        assert o.Has(t1) && o.Has(t2);
        FaceKeysSorted(es[t1], g);
        StitchInternalStep(es, faces, done, g);
        LinkOwners(elements, s, mediumIndex, largestIndex, t1, t2);
      } else {
        StitchBoundaryStep(es, faces, done, g);
      }
    }

    /**
     * The second half of `teach_triangles_of_neighborhood`: the traversal of the
     * store that links the two owners of every shared face.
     */
    method LinkSharedFaces(elements: array<Tetrahedron>)
      requires Valid() && Sound(elements[..], elements.Length, faces)
      modifies elements
      ensures elements[..] == Stitched(old(elements[..]), faces)
    {
      ghost var es := elements[..];
      var store := triangleNeighborhood;
      ghost var done: set<Face> := {};
      StitchedOverNothing(es, faces);
      forall f ensures !StoredBefore(store, f, 0, 0, 0) {
        StoredBeforeBounds(store, f);
      }
      var s := 0;
      while s < |store|
        invariant 0 <= s <= |store|
        invariant elements[..] == StitchedOver(es, faces, done)
        invariant forall f :: f in done <==> StoredBefore(store, f, s, 0, 0)
      {
        var ms := store[s];
        var i := 0;
        while i < |ms|
          invariant 0 <= i <= |ms|
          invariant elements[..] == StitchedOver(es, faces, done)
          invariant forall f :: f in done <==> StoredBefore(store, f, s, i, 0)
        {
          var entries := ms[i].entries;
          var j := 0;
          while j < |entries|
            invariant 0 <= j <= |entries|
            invariant elements[..] == StitchedOver(es, faces, done)
            invariant forall f :: f in done <==> StoredBefore(store, f, s, i, j)
          {
            ghost var g := KeyAt(store, s, i, j);
            StoredBeforeStep(store, s, i, j);
            LinkEntry(elements, es, done, s, i, j);
            done := done + {g};
            j := j + 1;
          }
          i := i + 1;
        }
        s := s + 1;
      }
      forall f ensures f in done <==> f in faces {
        StoredBeforeBounds(store, f);
      }
      assert done == faces.Keys;
    }

    /**
     * `teach_triangles_of_neighborhood`: registers every tetrahedron under its
     * position, then writes into both owners of every shared face the other owner,
     * in the order in which the store is traversed.
     */
    static method TeachTrianglesOfNeighborhood(elements: array<Tetrahedron>) returns (st: Status)
      modifies elements
      ensures st == StatusOf(RegisterAll(old(elements[..])))
      ensures st.Done? ==> elements[..] == Stitched(old(elements[..]), RegisterAll(old(elements[..])).value.faces)
      ensures st.Failed? ==> elements[..] == old(elements[..])
    {
      ghost var es := elements[..];
      var neighborhood := new Triangulation3Neighborhood();
      var n := 0;
      assert es[..0] == [];
      while n < elements.Length
        invariant 0 <= n <= elements.Length
        invariant fresh(neighborhood) && neighborhood.Valid()
        invariant elements[..] == es
        invariant RegisterAll(es[..n]) == Ok(neighborhood.Abs())
      {
        ghost var prev := neighborhood.Abs();
        st := neighborhood.RegisterTetrahedron(elements[n], n);
        assert es[..n + 1][..n] == es[..n];
        assert RegisterAll(es[..n + 1]) == RegisterFaces(prev, FaceKeys(es[n]), n);
        if st.Failed? {
          RegisterAllFailurePersists(es, n + 1);
          return;
        }
        n := n + 1;
      }
      assert es[..n] == es;
      RegisterAllRecords(es);

      neighborhood.LinkSharedFaces(elements);
      st := Done;
    }
  }
}
