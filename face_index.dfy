/**
 * The neighbourhood index seen abstractly: a map from each face key to the one or
 * two tetrahedra that own it.  The functions here are the specification of the
 * methods of `Triangulation3Neighborhood`: `Register` of `register_connection`,
 * `RegisterAll` of the registration pass, `Neighbor` of `get_neighbor` and
 * `Stitched` of the neighbour slots written by `teach_triangles_of_neighborhood`.
 */
module FaceIndex {
  import opened Wrappers
  import opened Tetrahedra

  /** The owners recorded for one face, in registration order. */
  datatype Owners = Owners(first: Option<nat>, second: Option<nat>) {
    predicate Full() {
      first.Some? && second.Some?
    }

    predicate Has(t: nat) {
      first == Some(t) || second == Some(t)
    }
  }

  /** The source's panics, as values: an out-of-range bucket index and the two `assert!`s. */
  datatype Fault = IndexOutOfBounds | MissingFirstOwner | ThirdOwner

  datatype Result<T> = Ok(value: T) | Err(fault: Fault)

  /** What a state-changing operation reports: it completed, or it panicked with `fault`. */
  datatype Status = Done | Failed(fault: Fault)

  function StatusOf<T>(r: Result<T>): Status {
    if r.Ok? then Done else Failed(r.fault)
  }

  /** Abstract state: the owners of every registered face and the number of buckets. */
  datatype Index = Index(faces: map<Face, Owners>, width: nat)

  const Empty: Index := Index(map[], 0)

  /** Every record has its first owner, and every key lies within the buckets. */
  ghost predicate Invariant(ix: Index) {
    forall f :: f in ix.faces ==> ix.faces[f].first.Some? && f.smaller < ix.width
  }

  /**
   * `register_connection` on the sorted key `f`: grow the buckets to `f.larger`,
   * then add `t` as the first owner of a new face or as the second owner of a face
   * that has one.
   */
  function Register(ix: Index, f: Face, t: nat): Result<Index> {
    var width := if ix.width < f.larger then f.larger else ix.width;
    if f.smaller >= width then Err(IndexOutOfBounds)
    else if f !in ix.faces then Ok(Index(ix.faces[f := Owners(Some(t), None)], width))
    else if ix.faces[f].first.None? then Err(MissingFirstOwner)
    else if ix.faces[f].second.Some? then Err(ThirdOwner)
    else Ok(Index(ix.faces[f := ix.faces[f].(second := Some(t))], width))
  }

  /** `register_tetrahedron`, for the keys `fs` of its faces, in order; stops at the first panic. */
  function RegisterFaces(ix: Index, fs: seq<Face>, t: nat): Result<Index>
    decreases |fs|
  {
    if fs == [] then Ok(ix)
    else match RegisterFaces(ix, fs[..|fs| - 1], t)
      case Err(e) => Err(e)
      case Ok(ix') => Register(ix', fs[|fs| - 1], t)
  }

  /** The first loop of `teach_triangles_of_neighborhood`: tetrahedron `i` registers as owner `i`. */
  function RegisterAll(es: seq<Tetrahedron>): Result<Index>
    decreases |es|
  {
    if es == [] then Ok(Empty)
    else match RegisterAll(es[..|es| - 1])
      case Err(e) => Err(e)
      case Ok(ix) => RegisterFaces(ix, FaceKeys(es[|es| - 1]), |es| - 1)
  }

  /** The owner of a record that is not `from` (the first owner when `from` is neither). */
  function Other(o: Owners, from: nat): Option<nat> {
    if o.first == Some(from) then o.second else o.first
  }

  /** `get_neighbor` on the sorted key `f`. */
  function Neighbor(ix: Index, f: Face, from: nat): Result<Option<nat>> {
    if f.smaller >= ix.width then Err(IndexOutOfBounds)
    else if f in ix.faces then Ok(Other(ix.faces[f], from))
    else Ok(None)
  }

  // ---------------------------------------------------------------------------
  // One registration

  /** `register_connection` keeps every record's first owner and every key within the buckets. */
  lemma {:induction false} RegisterKeepsInvariant(ix: Index, f: Face, t: nat)
    requires Invariant(ix)
    requires Register(ix, f, t).Ok?
    ensures Invariant(Register(ix, f, t).value)
  {
  }

  /**
   * `register_connection` panics exactly for an out-of-range bucket or a face that
   * already has two owners; otherwise it changes only the record of `f`, which then
   * has `t` as an owner, and grows the buckets to at least `f.larger`.
   */
  lemma {:induction false} RegisterOutcome(ix: Index, f: Face, t: nat)
    requires Invariant(ix)
    ensures Register(ix, f, t).Ok? <==>
      (f.smaller < ix.width || f.smaller < f.larger) && !(f in ix.faces && ix.faces[f].Full())
    ensures Register(ix, f, t).Err? && f in ix.faces && ix.faces[f].Full() ==>
      Register(ix, f, t).fault == ThirdOwner
    ensures Register(ix, f, t).Ok? ==>
      var ix' := Register(ix, f, t).value;
      ix'.width >= f.larger && ix'.width >= ix.width &&
      f in ix'.faces && ix'.faces[f].Has(t) &&
      forall g :: g != f ==> Get(ix'.faces, g) == Get(ix.faces, g)
  {
  }

  /** After only `t` has registered `f`, asking from `t` finds no neighbour. */
  lemma {:induction false} FirstOwnerHasNoNeighbor(ix: Index, f: Face, t: nat)
    requires Invariant(ix)
    requires f.smaller < f.larger
    requires f !in ix.faces
    ensures Register(ix, f, t).Ok?
    ensures Neighbor(Register(ix, f, t).value, f, t) == Ok(None)
  {
  }

  /** After `t0` and then `t1` register `f`, each one finds the other across it. */
  lemma {:induction false} SecondOwnerLinksBoth(ix: Index, f: Face, t0: nat, t1: nat)
    requires Invariant(ix)
    requires f.smaller < f.larger
    requires f !in ix.faces
    requires t0 != t1
    ensures Register(ix, f, t0).Ok?
    ensures var ix1 := Register(ix, f, t0).value;
      Register(ix1, f, t1).Ok? &&
      Neighbor(Register(ix1, f, t1).value, f, t0) == Ok(Some(t1)) &&
      Neighbor(Register(ix1, f, t1).value, f, t1) == Ok(Some(t0))
  {
  }

  /** A third registration of the same face is the fatal `assert!(e.2.is_none())`. */
  lemma {:induction false} ThirdOwnerFails(ix: Index, f: Face, t0: nat, t1: nat, t2: nat)
    requires Invariant(ix)
    requires f.smaller < f.larger
    requires f !in ix.faces
    ensures Register(ix, f, t0).Ok?
    ensures var ix1 := Register(ix, f, t0).value;
      Register(ix1, f, t1).Ok? &&
      Register(Register(ix1, f, t1).value, f, t2) == Err(ThirdOwner)
  {
  }

  /** The answer of `get_neighbor` is the same for every order of the three query nodes. */
  lemma {:induction false} NeighborPermutationInvariant(ix: Index, p1: nat, p2: nat, p3: nat, q1: nat, q2: nat, q3: nat, from: nat)
    requires Face(q1, q2, q3) in Permutations(p1, p2, p3)
    ensures Neighbor(ix, Sort3(p1, p2, p3), from) == Neighbor(ix, Sort3(q1, q2, q3), from)
  {
    Sort3Canonical(p1, p2, p3, q1, q2, q3);
  }

  // ---------------------------------------------------------------------------
  // The registration pass

  /** Every owner on record is a tetrahedron below `n` that has the face. */
  ghost predicate Sound(es: seq<Tetrahedron>, n: nat, faces: map<Face, Owners>)
    requires n <= |es|
  {
    forall f, u: nat {:trigger faces[f].Has(u)} :: f in faces && faces[f].Has(u) ==> u < n && f in FaceKeys(es[u])
  }

  /** The key of face `k` of tetrahedron `i`. */
  function ElementFace(es: seq<Tetrahedron>, i: nat, k: nat): Face
    requires i < |es| && k < 4
  {
    FaceKey(es[i], k)
  }

  /** Face `k` of tetrahedron `i` is on record with `i` as an owner. */
  ghost predicate Recorded(es: seq<Tetrahedron>, faces: map<Face, Owners>, i: nat, k: nat)
    requires i < |es| && k < 4
  {
    ElementFace(es, i, k) in faces && faces[ElementFace(es, i, k)].Has(i)
  }

  /** Every face of every tetrahedron below `n` is on record with that tetrahedron as an owner. */
  ghost predicate Complete(es: seq<Tetrahedron>, n: nat, faces: map<Face, Owners>)
    requires n <= |es|
  {
    forall i, k :: 0 <= i < n && 0 <= k < 4 ==> Recorded(es, faces, i, k)
  }

  /** A successful registration keeps every record and every owner, adding only `t` to `f`. */
  lemma {:induction false} RegisterKeepsOwners(ix: Index, f: Face, t: nat)
    requires Register(ix, f, t).Ok?
    ensures var ix' := Register(ix, f, t).value;
      f in ix'.faces && ix'.faces[f].Has(t) &&
      (forall g, u :: g in ix.faces && ix.faces[g].Has(u) ==> g in ix'.faces && ix'.faces[g].Has(u)) &&
      (forall g, u :: g in ix'.faces && ix'.faces[g].Has(u) ==> (g == f && u == t) || (g in ix.faces && ix.faces[g].Has(u)))
  {
  }

  /** A panic part-way through a tetrahedron's faces is the panic of the whole registration. */
  lemma {:induction false} RegisterFacesFailurePersists(ix: Index, fs: seq<Face>, t: nat, m: nat)
    requires m <= |fs|
    requires RegisterFaces(ix, fs[..m], t).Err?
    ensures RegisterFaces(ix, fs, t) == RegisterFaces(ix, fs[..m], t)
    decreases |fs| - m
  {
    if m < |fs| {
      assert fs[..m + 1][..m] == fs[..m];
      RegisterFacesFailurePersists(ix, fs, t, m + 1);
    } else {
      assert fs[..m] == fs;
    }
  }

  /** Registering the faces `fs[..m]` of tetrahedron `n` extends soundness to `n + 1` and keeps completeness. */
  lemma {:induction false} RegisterFacesKeepsRecords(es: seq<Tetrahedron>, n: nat, ix: Index, m: nat)
    requires n < |es| && m <= 4
    requires Invariant(ix) && Sound(es, n, ix.faces) && Complete(es, n, ix.faces)
    requires RegisterFaces(ix, FaceKeys(es[n])[..m], n).Ok?
    ensures var ix' := RegisterFaces(ix, FaceKeys(es[n])[..m], n).value;
      Invariant(ix') && Sound(es, n + 1, ix'.faces) && Complete(es, n, ix'.faces) &&
      forall k :: 0 <= k < m ==> Recorded(es, ix'.faces, n, k)
  {
    var fs := FaceKeys(es[n]);
    if m == 0 {
      assert fs[..0] == [];
    } else {
      assert fs[..m][..m - 1] == fs[..m - 1];
      var prev := RegisterFaces(ix, fs[..m - 1], n);
      assert prev.Ok?;
      RegisterFacesKeepsRecords(es, n, ix, m - 1);
      var ix1 := prev.value;
      assert fs[..m][m - 1] == fs[m - 1];
      var ix2 := Register(ix1, fs[m - 1], n).value;
      assert RegisterFaces(ix, fs[..m], n).value == ix2;
      RegisterKeepsInvariant(ix1, fs[m - 1], n);
      RegisterKeepsOwners(ix1, fs[m - 1], n);
      assert fs[m - 1] in FaceKeys(es[n]);
      forall i, k | 0 <= i < n && 0 <= k < 4
        ensures Recorded(es, ix2.faces, i, k)
      {
        assert Recorded(es, ix1.faces, i, k);
      }
      forall k | 0 <= k < m
        ensures Recorded(es, ix2.faces, n, k)
      {
        if k < m - 1 {
          assert Recorded(es, ix1.faces, n, k);
        } else {
          assert ElementFace(es, n, k) == fs[m - 1];
        }
      }
    }
  }

  /** A panic while registering the first `m` tetrahedra is the panic of the whole pass. */
  lemma {:induction false} RegisterAllFailurePersists(es: seq<Tetrahedron>, m: nat)
    requires m <= |es|
    requires RegisterAll(es[..m]).Err?
    ensures RegisterAll(es) == RegisterAll(es[..m])
    decreases |es| - m
  {
    if m < |es| {
      assert es[..m + 1][..m] == es[..m];
      RegisterAllFailurePersists(es, m + 1);
    } else {
      assert es[..m] == es;
    }
  }

  /** Soundness and completeness for the first `n` tetrahedra carry over from the prefix to the whole sequence. */
  lemma {:induction false} RecordsOfPrefix(es: seq<Tetrahedron>, n: nat, faces: map<Face, Owners>)
    requires n <= |es|
    requires Sound(es[..n], n, faces) && Complete(es[..n], n, faces)
    ensures Sound(es, n, faces) && Complete(es, n, faces)
  {
    var init := es[..n];
    forall f, u: nat | f in faces && faces[f].Has(u) ensures u < n && f in FaceKeys(es[u]) {
      assert u < n && f in FaceKeys(init[u]);
    }
    forall i, k | 0 <= i < n && 0 <= k < 4 ensures Recorded(es, faces, i, k) {
      assert Recorded(init, faces, i, k);
      assert ElementFace(init, i, k) == ElementFace(es, i, k);
    }
  }

  /** A successful registration pass records exactly the faces of the tetrahedra, with their owners. */
  lemma {:induction false} RegisterAllRecords(es: seq<Tetrahedron>)
    requires RegisterAll(es).Ok?
    ensures Invariant(RegisterAll(es).value)
    ensures Sound(es, |es|, RegisterAll(es).value.faces)
    ensures Complete(es, |es|, RegisterAll(es).value.faces)
    decreases |es|
  {
    if es != [] {
      var n := |es| - 1;
      var init := es[..n];
      RegisterAllRecords(init);
      var ix := RegisterAll(init).value;
      RecordsOfPrefix(es, n, ix.faces);
      assert FaceKeys(es[n])[..4] == FaceKeys(es[n]);
      RegisterFacesKeepsRecords(es, n, ix, 4);
    }
  }

  /** A face shared by two tetrahedra of a successful pass has both of them, and only them, as owners. */
  lemma {:induction false} RegisterAllSharedFace(es: seq<Tetrahedron>, i: nat, j: nat, ki: nat, kj: nat)
    requires RegisterAll(es).Ok?
    requires i < |es| && j < |es| && i != j && ki < 4 && kj < 4
    requires FaceKey(es[i], ki) == FaceKey(es[j], kj)
    ensures FaceKey(es[i], ki) in RegisterAll(es).value.faces
    ensures RegisterAll(es).value.faces[FaceKey(es[i], ki)] in {Owners(Some(i), Some(j)), Owners(Some(j), Some(i))}
  {
    RegisterAllRecords(es);
    var faces := RegisterAll(es).value.faces;
    assert Recorded(es, faces, i, ki);
    assert Recorded(es, faces, j, kj);
  }

  // ---------------------------------------------------------------------------
  // When the registration pass succeeds

  /** No record names the same tetrahedron as both of its owners. */
  ghost predicate DistinctOwners(faces: map<Face, Owners>) {
    forall f :: f in faces && faces[f].Full() ==> faces[f].first != faces[f].second
  }

  /** No face key belongs to three distinct tetrahedra of `es`. */
  ghost predicate NoFaceOfThree(es: seq<Tetrahedron>) {
    forall f, i, j, k :: 0 <= i < j < k < |es| && f in FaceKeys(es[i]) && f in FaceKeys(es[j]) ==> f !in FaceKeys(es[k])
  }

  /** No face key of tetrahedron `n` already belongs to two distinct tetrahedra below `n`. */
  ghost predicate NoThirdHolder(es: seq<Tetrahedron>, n: nat)
    requires n < |es|
  {
    forall f, i, j :: 0 <= i < j < n && f in FaceKeys(es[i]) && f in FaceKeys(es[j]) ==> f !in FaceKeys(es[n])
  }

  /**
   * One registration of face `g` of tetrahedron `n`, which has four distinct nodes
   * and does not own `g` yet: the only possible panic is a third owner, there is
   * none when `g` does not already belong to two tetrahedra below `n`, and on
   * success the records stay sound and keep two different owners.
   */
  lemma {:induction false} RegisterFaceOutcome(es: seq<Tetrahedron>, n: nat, ix: Index, g: Face)
    requires n < |es| && g in FaceKeys(es[n]) && g.smaller < g.larger
    requires Invariant(ix) && Sound(es, n + 1, ix.faces) && DistinctOwners(ix.faces)
    requires !(g in ix.faces && ix.faces[g].Has(n))
    ensures Register(ix, g, n).Err? ==> Register(ix, g, n).fault == ThirdOwner
    ensures NoThirdHolder(es, n) ==> Register(ix, g, n).Ok?
    ensures Register(ix, g, n).Ok? ==>
      var ix' := Register(ix, g, n).value;
      Invariant(ix') && Sound(es, n + 1, ix'.faces) && DistinctOwners(ix'.faces) &&
      forall f :: f in ix'.faces && ix'.faces[f].Has(n) ==> f == g || (f in ix.faces && ix.faces[f].Has(n))
  {
    RegisterOutcome(ix, g, n);
    if g in ix.faces && ix.faces[g].Full() {
      var u1, u2 := ix.faces[g].first.value, ix.faces[g].second.value;
      assert ix.faces[g].Has(u1) && ix.faces[g].Has(u2);
    } else {
      RegisterKeepsInvariant(ix, g, n);
      RegisterKeepsOwners(ix, g, n);
    }
  }

  /** Tetrahedron `n` does not own face `m - 1` while it owns only faces before it. */
  lemma {:induction false} NotYetOwner(es: seq<Tetrahedron>, n: nat, faces: map<Face, Owners>, m: nat)
    requires n < |es| && 0 < m <= 4 && DistinctNodes(es[n])
    requires forall f :: f in faces && faces[f].Has(n) ==> f in FaceKeys(es[n])[..m - 1]
    ensures !(FaceKeys(es[n])[m - 1] in faces && faces[FaceKeys(es[n])[m - 1]].Has(n))
  {
    var fs := FaceKeys(es[n]);
    var g := fs[m - 1];
    if g in faces && faces[g].Has(n) {
      var j :| 0 <= j < m - 1 && fs[..m - 1][j] == g;
      DistinctFaceKeys(es[n], j, m - 1);
      assert false;
    }
  }

  /** Owning face `m - 1` besides faces before it is owning only faces of `fs[..m]`. */
  lemma {:induction false} OwnedFacesGrow(fs: seq<Face>, m: nat, faces: map<Face, Owners>, faces': map<Face, Owners>, n: nat)
    requires 0 < m <= |fs|
    requires forall f :: f in faces && faces[f].Has(n) ==> f in fs[..m - 1]
    requires forall f :: f in faces' && faces'[f].Has(n) ==> f == fs[m - 1] || (f in faces && faces[f].Has(n))
    ensures forall f :: f in faces' && faces'[f].Has(n) ==> f in fs[..m]
  {
    assert fs[..m] == fs[..m - 1] + [fs[m - 1]];
  }

  /**
   * Registering the faces `fs[..m]` of tetrahedron `n`, which has four distinct
   * nodes: the only possible panic is a third owner, there is none when no face of
   * `n` already has two owners below `n`, and on success every record still has
   * two different owners and `n` owns only faces from `fs[..m]`.
   */
  lemma {:induction false} RegisterFacesOutcome(es: seq<Tetrahedron>, n: nat, ix: Index, m: nat)
    requires n < |es| && m <= 4 && DistinctNodes(es[n])
    requires Invariant(ix) && Sound(es, n, ix.faces) && DistinctOwners(ix.faces)
    ensures RegisterFaces(ix, FaceKeys(es[n])[..m], n).Err? ==>
      RegisterFaces(ix, FaceKeys(es[n])[..m], n).fault == ThirdOwner
    ensures NoThirdHolder(es, n) ==> RegisterFaces(ix, FaceKeys(es[n])[..m], n).Ok?
    ensures RegisterFaces(ix, FaceKeys(es[n])[..m], n).Ok? ==>
      var ix' := RegisterFaces(ix, FaceKeys(es[n])[..m], n).value;
      Invariant(ix') && Sound(es, n + 1, ix'.faces) && DistinctOwners(ix'.faces) &&
      forall f :: f in ix'.faces && ix'.faces[f].Has(n) ==> f in FaceKeys(es[n])[..m]
  {
    var fs := FaceKeys(es[n]);
    if m == 0 {
      assert fs[..0] == [];
    } else {
      assert fs[..m][..m - 1] == fs[..m - 1];
      RegisterFacesOutcome(es, n, ix, m - 1);
      var prev := RegisterFaces(ix, fs[..m - 1], n);
      if prev.Ok? {
        var ix1 := prev.value;
        var g := fs[m - 1];
        assert fs[..m][m - 1] == g;
        assert RegisterFaces(ix, fs[..m], n) == Register(ix1, g, n);
        FaceKeyStrict(es[n], m - 1);
        NotYetOwner(es, n, ix1.faces, m);
        RegisterFaceOutcome(es, n, ix1, g);
        if Register(ix1, g, n).Ok? {
          OwnedFacesGrow(fs, m, ix1.faces, Register(ix1, g, n).value.faces, n);
        }
      }
    }
  }

  /** Without a face of three tetrahedra in `es`, none is in a prefix, nor completed by tetrahedron `n`. */
  lemma {:induction false} NoFaceOfThreePrefix(es: seq<Tetrahedron>, n: nat)
    requires n < |es| && NoFaceOfThree(es)
    ensures NoFaceOfThree(es[..n]) && NoThirdHolder(es, n)
  {
    var init := es[..n];
    forall f, i, j, k | 0 <= i < j < k < |init| && f in FaceKeys(init[i]) && f in FaceKeys(init[j])
      ensures f !in FaceKeys(init[k])
    {
      assert f in FaceKeys(es[i]) && f in FaceKeys(es[j]);
    }
  }

  /** Soundness for the first `n` tetrahedra carries over from the prefix to the whole sequence. */
  lemma {:induction false} SoundOfPrefix(es: seq<Tetrahedron>, n: nat, faces: map<Face, Owners>)
    requires n <= |es| && Sound(es[..n], n, faces)
    ensures Sound(es, n, faces)
  {
    forall f, u: nat | f in faces && faces[f].Has(u) ensures u < n && f in FaceKeys(es[u]) {
      assert u < n && f in FaceKeys(es[..n][u]);
    }
  }

  /** Every tetrahedron of a prefix of `es` has four distinct nodes when every tetrahedron of `es` has. */
  lemma {:induction false} DistinctNodesOfPrefix(es: seq<Tetrahedron>, n: nat)
    requires n <= |es|
    requires forall i :: 0 <= i < |es| ==> DistinctNodes(es[i])
    ensures forall i :: 0 <= i < n ==> DistinctNodes(es[..n][i])
  {
    forall i | 0 <= i < n ensures DistinctNodes(es[..n][i]) {
      assert es[..n][i] == es[i];
    }
  }

  /**
   * The registration pass over tetrahedra with four distinct nodes each: its only
   * possible panic is a third owner, and a successful pass records two different
   * owners for every shared face.
   */
  lemma {:induction false} RegisterAllOutcome(es: seq<Tetrahedron>)
    requires forall i :: 0 <= i < |es| ==> DistinctNodes(es[i])
    ensures RegisterAll(es).Err? ==> RegisterAll(es).fault == ThirdOwner
    ensures RegisterAll(es).Ok? ==>
      Invariant(RegisterAll(es).value) && Sound(es, |es|, RegisterAll(es).value.faces) &&
      DistinctOwners(RegisterAll(es).value.faces)
    decreases |es|
  {
    if es != [] {
      var n := |es| - 1;
      var init := es[..n];
      DistinctNodesOfPrefix(es, n);
      RegisterAllOutcome(init);
      if RegisterAll(init).Ok? {
        var ix := RegisterAll(init).value;
        assert RegisterAll(es) == RegisterFaces(ix, FaceKeys(es[n]), n);
        SoundOfPrefix(es, n, ix.faces);
        assert FaceKeys(es[n])[..4] == FaceKeys(es[n]);
        RegisterFacesOutcome(es, n, ix, 4);
      } else {
        assert RegisterAll(es) == RegisterAll(init);
      }
    }
  }

  /** Over tetrahedra with four distinct nodes each, the pass succeeds when no face belongs to three of them. */
  lemma {:induction false} RegisterAllWithoutTriples(es: seq<Tetrahedron>)
    requires forall i :: 0 <= i < |es| ==> DistinctNodes(es[i])
    requires NoFaceOfThree(es)
    ensures RegisterAll(es).Ok?
    decreases |es|
  {
    if es != [] {
      var n := |es| - 1;
      var init := es[..n];
      DistinctNodesOfPrefix(es, n);
      NoFaceOfThreePrefix(es, n);
      RegisterAllWithoutTriples(init);
      RegisterAllOutcome(init);
      var ix := RegisterAll(init).value;
      assert RegisterAll(es) == RegisterFaces(ix, FaceKeys(es[n]), n);
      SoundOfPrefix(es, n, ix.faces);
      assert FaceKeys(es[n])[..4] == FaceKeys(es[n]);
      RegisterFacesOutcome(es, n, ix, 4);
    }
  }

  /** After a successful pass, every tetrahedron having face `f` is an owner on record of `f`. */
  lemma {:induction false} RegisteredHolder(es: seq<Tetrahedron>, i: nat, f: Face)
    requires RegisterAll(es).Ok?
    requires i < |es| && f in FaceKeys(es[i])
    ensures f in RegisterAll(es).value.faces && RegisterAll(es).value.faces[f].Has(i)
  {
    RegisterAllRecords(es);
    var k :| 0 <= k < 4 && FaceKeys(es[i])[k] == f;
    assert Recorded(es, RegisterAll(es).value.faces, i, k);
  }

  /**
   * For tetrahedra with four distinct nodes each, the registration pass succeeds
   * exactly when no face key belongs to three of them; otherwise it fails on the
   * `assert!` against a third owner.  On success no face has the same tetrahedron
   * as both owners.
   */
  lemma {:induction false} RegisterAllSucceeds(es: seq<Tetrahedron>)
    requires forall i :: 0 <= i < |es| ==> DistinctNodes(es[i])
    ensures RegisterAll(es).Ok? <==> NoFaceOfThree(es)
    ensures RegisterAll(es).Err? ==> RegisterAll(es).fault == ThirdOwner
    ensures RegisterAll(es).Ok? ==> DistinctOwners(RegisterAll(es).value.faces)
  {
    RegisterAllOutcome(es);
    if NoFaceOfThree(es) {
      RegisterAllWithoutTriples(es);
    }
    if RegisterAll(es).Ok? {
      forall f, i, j, k | 0 <= i < j < k < |es| && f in FaceKeys(es[i]) && f in FaceKeys(es[j])
        ensures f !in FaceKeys(es[k])
      {
        if f in FaceKeys(es[k]) {
          RegisteredHolder(es, i, f);
          RegisteredHolder(es, j, f);
          RegisteredHolder(es, k, f);
        }
      }
    }
  }

  /**
   * After a successful pass over tetrahedra with distinct nodes, a face that
   * belongs to tetrahedron `i` alone is on record with no second owner, so the
   * stitching pass leaves its slot as it was.
   */
  lemma {:induction false} LoneFaceHasOneOwner(es: seq<Tetrahedron>, i: nat, k: nat)
    requires forall j :: 0 <= j < |es| ==> DistinctNodes(es[j])
    requires RegisterAll(es).Ok?
    requires i < |es| && k < 4
    requires forall j :: 0 <= j < |es| && j != i ==> FaceKey(es[i], k) !in FaceKeys(es[j])
    ensures FaceKey(es[i], k) in RegisterAll(es).value.faces
    ensures RegisterAll(es).value.faces[FaceKey(es[i], k)] == Owners(Some(i), None)
    ensures Stitched(es, RegisterAll(es).value.faces)[i].neighbors[k] == es[i].neighbors[k]
  {
    RegisterAllRecords(es);
    RegisterAllOutcome(es);
    var faces := RegisterAll(es).value.faces;
    var f := FaceKey(es[i], k);
    assert Recorded(es, faces, i, k);
    var o := faces[f];
    assert o.Has(o.first.value);
    if o.second.Some? {
      assert o.Has(o.second.value);
      assert false;
    }
    StitchedKeepsBoundarySlots(es, i, k);
  }

  // ---------------------------------------------------------------------------
  // The stitching pass

  /**
   * Slot `k` of tetrahedron `i` once the faces in `done` have been stitched: a
   * face with two owners writes the other owner into the slot that
   * `get_neighbor_index` picks for it in each owner; every other slot is as before.
   */
  function StitchedSlot(es: seq<Tetrahedron>, faces: map<Face, Owners>, done: set<Face>, i: nat, k: nat): Option<nat>
    requires i < |es| && k < 4
  {
    var f := FaceKey(es[i], k);
    if f in done && f in faces && faces[f].Full() && faces[f].Has(i)
       && GetNeighborIndex(es[i], f.smaller, f.medium, f.larger) == k
    then Other(faces[f], i)
    else es[i].neighbors[k]
  }

  /** The tetrahedra with the faces in `done` stitched; nodes never change. */
  function StitchedOver(es: seq<Tetrahedron>, faces: map<Face, Owners>, done: set<Face>): (r: seq<Tetrahedron>)
    ensures |r| == |es|
    ensures forall i :: 0 <= i < |es| ==> r[i].nodes == es[i].nodes
    ensures forall i, k :: 0 <= i < |es| && 0 <= k < 4 ==> r[i].neighbors[k] == StitchedSlot(es, faces, done, i, k)
  {
    seq(|es|, i requires 0 <= i < |es| =>
      Tetrahedron(es[i].nodes, seq(4, k requires 0 <= k < 4 => StitchedSlot(es, faces, done, i, k))))
  }

  /** The result of `teach_triangles_of_neighborhood`: every recorded face stitched. */
  function Stitched(es: seq<Tetrahedron>, faces: map<Face, Owners>): seq<Tetrahedron> {
    StitchedOver(es, faces, faces.Keys)
  }

  /** Stitching nothing changes nothing. */
  lemma {:induction false} StitchedOverNothing(es: seq<Tetrahedron>, faces: map<Face, Owners>)
    ensures StitchedOver(es, faces, {}) == es
  {
    var r := StitchedOver(es, faces, {});
    forall i | 0 <= i < |es| ensures r[i] == es[i] {
      assert r[i].neighbors == es[i].neighbors;
    }
  }

  /** Stitching a face without two owners writes nothing. */
  lemma {:induction false} StitchBoundaryStep(es: seq<Tetrahedron>, faces: map<Face, Owners>, done: set<Face>, g: Face)
    requires g in faces && !faces[g].Full()
    ensures StitchedOver(es, faces, done + {g}) == StitchedOver(es, faces, done)
  {
    var r, r' := StitchedOver(es, faces, done), StitchedOver(es, faces, done + {g});
    forall i | 0 <= i < |es| ensures r'[i] == r[i] {
      assert r'[i].neighbors == r[i].neighbors;
    }
  }

  /**
   * The two writes of the stitching pass for a face `g` with owners `t1`, `t2`:
   * the slot of `g` in `t1` gets `t2`, then the slot of `g` in `t2` gets `t1`.
   */
  function LinkFace(cur: seq<Tetrahedron>, g: Face, t1: nat, t2: nat): (r: seq<Tetrahedron>)
    requires g.Sorted() && t1 < |cur| && t2 < |cur|
    requires g in FaceKeys(cur[t1]) && g in FaceKeys(cur[t2])
    ensures |r| == |cur|
    ensures forall i :: 0 <= i < |cur| ==> r[i].nodes == cur[i].nodes
  {
    var c1 := cur[t1 := SetNeighbor(cur[t1], GetNeighborIndex(cur[t1], g.smaller, g.medium, g.larger), Some(t2))];
    c1[t2 := SetNeighbor(c1[t2], GetNeighborIndex(c1[t2], g.smaller, g.medium, g.larger), Some(t1))]
  }

  /** What `LinkFace` leaves in slot `k` of tetrahedron `i`. */
  lemma {:induction false} LinkFaceSlot(cur: seq<Tetrahedron>, g: Face, t1: nat, t2: nat, i: nat, k: nat)
    requires g.Sorted() && t1 < |cur| && t2 < |cur|
    requires g in FaceKeys(cur[t1]) && g in FaceKeys(cur[t2])
    requires i < |cur| && k < 4
    ensures LinkFace(cur, g, t1, t2)[i].neighbors[k] ==
      if (i == t1 || i == t2) && k == SlotOf(cur[i].nodes, g) then Some(if i == t2 then t1 else t2)
      else cur[i].neighbors[k]
  {
    assert Sort3(g.smaller, g.medium, g.larger) == g;
  }

  /** Slot `k` of tetrahedron `i` after `LinkFace` on the next face is the slot stitched over one more face. */
  lemma {:induction false} StitchInternalSlot(es: seq<Tetrahedron>, faces: map<Face, Owners>, done: set<Face>, g: Face, i: nat, k: nat)
    requires g !in done && g in faces && faces[g].Full() && g.Sorted()
    requires faces[g].first.value < |es| && faces[g].second.value < |es|
    requires g in FaceKeys(es[faces[g].first.value]) && g in FaceKeys(es[faces[g].second.value])
    requires i < |es| && k < 4
    ensures LinkFace(StitchedOver(es, faces, done), g, faces[g].first.value, faces[g].second.value)[i].neighbors[k]
         == StitchedSlot(es, faces, done + {g}, i, k)
  {
    var t1, t2 := faces[g].first.value, faces[g].second.value;
    var cur := StitchedOver(es, faces, done);
    assert cur[i].nodes == es[i].nodes;
    LinkFaceSlot(cur, g, t1, t2, i, k);
    assert Sort3(g.smaller, g.medium, g.larger) == g;
    assert cur[i].neighbors[k] == StitchedSlot(es, faces, done, i, k);
    if FaceKey(es[i], k) != g {
      assert (i == t1 || i == t2) ==> k != SlotOf(es[i].nodes, g);
    } else {
      assert GetNeighborIndex(es[i], g.smaller, g.medium, g.larger) == SlotOf(es[i].nodes, g);
      assert faces[g].Has(i) <==> i == t1 || i == t2;
    }
  }

  /** Stitching one more face with two owners is `LinkFace` with its owners. */
  lemma {:induction false} StitchInternalStep(es: seq<Tetrahedron>, faces: map<Face, Owners>, done: set<Face>, g: Face)
    requires g !in done && g in faces && faces[g].Full() && g.Sorted()
    requires faces[g].first.value < |es| && faces[g].second.value < |es|
    requires g in FaceKeys(es[faces[g].first.value]) && g in FaceKeys(es[faces[g].second.value])
    ensures LinkFace(StitchedOver(es, faces, done), g, faces[g].first.value, faces[g].second.value)
         == StitchedOver(es, faces, done + {g})
  {
    var t1, t2 := faces[g].first.value, faces[g].second.value;
    var c2 := LinkFace(StitchedOver(es, faces, done), g, t1, t2);
    var r := StitchedOver(es, faces, done + {g});
    forall i | 0 <= i < |es| ensures c2[i] == r[i] {
      forall k | 0 <= k < 4 ensures c2[i].neighbors[k] == r[i].neighbors[k] {
        StitchInternalSlot(es, faces, done, g, i, k);
      }
      assert c2[i].neighbors == r[i].neighbors;
    }
  }

  /**
   * After a successful pass, the two owners of every shared face point at each
   * other through that face's slot.
   */
  lemma {:induction false} StitchedLinksSymmetric(es: seq<Tetrahedron>, f: Face)
    requires RegisterAll(es).Ok?
    requires f in RegisterAll(es).value.faces && RegisterAll(es).value.faces[f].Full()
    ensures var o := RegisterAll(es).value.faces[f];
      var t1, t2 := o.first.value, o.second.value;
      var s := Stitched(es, RegisterAll(es).value.faces);
      t1 < |es| && t2 < |es| && f in FaceKeys(es[t1]) && f in FaceKeys(es[t2]) &&
      s[t1].neighbors[GetNeighborIndex(es[t1], f.smaller, f.medium, f.larger)] == Some(t2) &&
      s[t2].neighbors[GetNeighborIndex(es[t2], f.smaller, f.medium, f.larger)] == Some(t1)
  {
    RegisterAllRecords(es);
    var o := RegisterAll(es).value.faces[f];
    assert o.Has(o.first.value) && o.Has(o.second.value);
    FaceKeysSorted(es[o.first.value], f);
  }

  /**
   * After a successful pass, a slot of a tetrahedron with distinct nodes holds the
   * neighbour that `get_neighbor` reports across that face if the face is shared,
   * and is untouched if the face is on the boundary.
   */
  lemma {:induction false} StitchedSlotMatchesNeighbor(es: seq<Tetrahedron>, i: nat, k: nat)
    requires RegisterAll(es).Ok?
    requires i < |es| && k < 4 && DistinctNodes(es[i])
    ensures var ix := RegisterAll(es).value;
      var f := FaceKey(es[i], k);
      f in ix.faces && Neighbor(ix, f, i).Ok? &&
      Stitched(es, ix.faces)[i].neighbors[k] ==
        if ix.faces[f].Full() then Neighbor(ix, f, i).value else es[i].neighbors[k]
  {
    RegisterAllRecords(es);
    var ix := RegisterAll(es).value;
    assert Recorded(es, ix.faces, i, k);
    var f := FaceKey(es[i], k);
    assert Sort3(f.smaller, f.medium, f.larger) == f;
    assert f in FaceKeys(es[i]);
    var slot := GetNeighborIndex(es[i], f.smaller, f.medium, f.larger);
    if slot < k {
      DistinctFaceKeys(es[i], slot, k);
    }
  }

  /** After a successful pass, the slot of a boundary face keeps its old value. */
  lemma {:induction false} StitchedKeepsBoundarySlots(es: seq<Tetrahedron>, i: nat, k: nat)
    requires RegisterAll(es).Ok?
    requires i < |es| && k < 4
    requires FaceKey(es[i], k) in RegisterAll(es).value.faces
    requires RegisterAll(es).value.faces[FaceKey(es[i], k)].second.None?
    ensures Stitched(es, RegisterAll(es).value.faces)[i].neighbors[k] == es[i].neighbors[k]
  {
  }
}
