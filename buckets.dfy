/**
 * The three-level store behind `Triangulation3Neighborhood`: the outer sequence is
 * indexed by the smallest node of a face key, each bucket lists
 * `(medium, inner list)` pairs, and each inner list holds
 * `(largest, owner1, owner2)` records.
 */
module Buckets {
  import opened Wrappers
  import opened Tetrahedra
  import opened FaceIndex

  /** `(largest, owner1, owner2)`. */
  datatype Entry = Entry(largest: nat, owners: Owners)

  /** `(medium, inner list)`. */
  datatype MediumBucket = MediumBucket(medium: nat, entries: seq<Entry>)

  type Store = seq<seq<MediumBucket>>

  /** The position of the first pair whose medium index is `m`. */
  function MediumIndex(ms: seq<MediumBucket>, m: nat): (r: Option<nat>)
    ensures r.Some? ==> r.value < |ms| && ms[r.value].medium == m
    ensures r.Some? ==> forall i :: 0 <= i < r.value ==> ms[i].medium != m
    ensures r.None? ==> forall i :: 0 <= i < |ms| ==> ms[i].medium != m
    decreases |ms|
  {
    if ms == [] then None
    else if ms[0].medium == m then Some(0)
    else match MediumIndex(ms[1..], m)
      case None => None
      case Some(i) => Some(i + 1)
  }

  /** The position of the first record whose largest index is `l`. */
  function EntryIndex(es: seq<Entry>, l: nat): (r: Option<nat>)
    ensures r.Some? ==> r.value < |es| && es[r.value].largest == l
    ensures r.Some? ==> forall j :: 0 <= j < r.value ==> es[j].largest != l
    ensures r.None? ==> forall j :: 0 <= j < |es| ==> es[j].largest != l
    decreases |es|
  {
    if es == [] then None
    else if es[0].largest == l then Some(0)
    else match EntryIndex(es[1..], l)
      case None => None
      case Some(j) => Some(j + 1)
  }

  /** The owners stored for the sorted key `f`, found as the source searches for them. */
  function Lookup(b: Store, f: Face): Option<Owners> {
    if f.smaller >= |b| then None
    else match MediumIndex(b[f.smaller], f.medium)
      case None => None
      case Some(i) =>
        match EntryIndex(b[f.smaller][i].entries, f.larger)
        case None => None
        case Some(j) => Some(b[f.smaller][i].entries[j].owners)
  }

  /** No largest index occurs twice in an inner list. */
  ghost predicate UniqueLargest(es: seq<Entry>) {
    forall j, j' :: 0 <= j < j' < |es| ==> es[j].largest != es[j'].largest
  }

  /** No medium index occurs twice in a bucket, and every inner list is unique. */
  ghost predicate BucketWellFormed(ms: seq<MediumBucket>) {
    (forall i, i' :: 0 <= i < i' < |ms| ==> ms[i].medium != ms[i'].medium) &&
    (forall i :: 0 <= i < |ms| ==> UniqueLargest(ms[i].entries))
  }

  /** Each face key is stored at most once. */
  ghost predicate WellFormed(b: Store) {
    forall s :: 0 <= s < |b| ==> BucketWellFormed(b[s])
  }

  /** The key of the record at position `(s, i, j)`. */
  function KeyAt(b: Store, s: nat, i: nat, j: nat): Face
    requires s < |b| && i < |b[s]| && j < |b[s][i].entries|
  {
    Face(s, b[s][i].medium, b[s][i].entries[j].largest)
  }

  /** Appending a pair only matters for its own medium index when that index was absent. */
  lemma {:induction false} MediumIndexAppend(ms: seq<MediumBucket>, x: MediumBucket, m: nat)
    ensures MediumIndex(ms + [x], m) ==
      if MediumIndex(ms, m).Some? then MediumIndex(ms, m)
      else if x.medium == m then Some(|ms|) else None
  {
    var ms' := ms + [x];
    assert forall i :: 0 <= i < |ms| ==> ms'[i] == ms[i];
    assert ms'[|ms|] == x;
  }

  /** Appending a record only matters for its own largest index when that index was absent. */
  lemma {:induction false} EntryIndexAppend(es: seq<Entry>, x: Entry, l: nat)
    ensures EntryIndex(es + [x], l) ==
      if EntryIndex(es, l).Some? then EntryIndex(es, l)
      else if x.largest == l then Some(|es|) else None
  {
    var es' := es + [x];
    assert forall j :: 0 <= j < |es| ==> es'[j] == es[j];
    assert es'[|es|] == x;
  }

  /** In a well-formed store, looking up the key of a record finds that record. */
  lemma {:induction false} LookupAt(b: Store, s: nat, i: nat, j: nat)
    requires WellFormed(b)
    requires s < |b| && i < |b[s]| && j < |b[s][i].entries|
    ensures Lookup(b, KeyAt(b, s, i, j)) == Some(b[s][i].entries[j].owners)
  {
    assert BucketWellFormed(b[s]);
    var mi := MediumIndex(b[s], b[s][i].medium);
    assert mi == Some(i);
    assert UniqueLargest(b[s][i].entries);
    assert EntryIndex(b[s][i].entries, b[s][i].entries[j].largest) == Some(j);
  }

  /** `resize` with empty buckets changes no lookup and keeps the store well formed. */
  lemma {:induction false} GrowKeepsLookups(b: Store, n: nat)
    requires WellFormed(b)
    ensures WellFormed(b + seq(n, _ => []))
    ensures forall f :: Lookup(b + seq(n, _ => []), f) == Lookup(b, f)
  {
    var b' := b + seq(n, _ => []);
    forall s | 0 <= s < |b'| ensures BucketWellFormed(b'[s]) {
      if s < |b| {
        assert b'[s] == b[s];
      } else {
        assert b'[s] == [];
      }
    }
    forall f ensures Lookup(b', f) == Lookup(b, f) {
      if f.smaller < |b| {
        assert b'[f.smaller] == b[f.smaller];
      } else if f.smaller < |b'| {
        assert b'[f.smaller] == [];
      }
    }
  }

  /** `e.2 = Some(..)`: replacing the owners of one record changes only the lookup of its key. */
  lemma {:induction false} SetOwnersAt(b: Store, s: nat, i: nat, j: nat, o: Owners)
    requires WellFormed(b)
    requires s < |b| && i < |b[s]| && j < |b[s][i].entries|
    ensures var mb := b[s][i];
      var b' := b[s := b[s][i := mb.(entries := mb.entries[j := Entry(mb.entries[j].largest, o)])]];
      WellFormed(b') &&
      forall f :: Lookup(b', f) == if f == KeyAt(b, s, i, j) then Some(o) else Lookup(b, f)
  {
    var mb := b[s][i];
    var es' := mb.entries[j := Entry(mb.entries[j].largest, o)];
    var ms' := b[s][i := mb.(entries := es')];
    var b' := b[s := ms'];
    assert BucketWellFormed(b[s]);
    assert UniqueLargest(mb.entries);
    assert UniqueLargest(es');
    assert BucketWellFormed(ms');
    assert WellFormed(b') by {
      forall s' | 0 <= s' < |b'| ensures BucketWellFormed(b'[s']) {
        if s' != s {
          assert BucketWellFormed(b[s']);
        }
      }
    }
    forall f ensures Lookup(b', f) == if f == KeyAt(b, s, i, j) then Some(o) else Lookup(b, f) {
      if f.smaller == s {
        assert forall i' :: 0 <= i' < |ms'| ==> ms'[i'].medium == b[s][i'].medium;
        var mi, mi' := MediumIndex(b[s], f.medium), MediumIndex(ms', f.medium);
        assert mi == mi';
        if mi == Some(i) {
          assert forall j' :: 0 <= j' < |es'| ==> es'[j'].largest == mb.entries[j'].largest;
          var ei, ei' := EntryIndex(mb.entries, f.larger), EntryIndex(es', f.larger);
          assert ei == ei';
        }
      }
    }
  }

  /** `push` onto an inner list without the key: only the new key becomes found. */
  lemma {:induction false} AppendEntryAt(b: Store, s: nat, i: nat, l: nat, o: Owners)
    requires WellFormed(b)
    requires s < |b| && i < |b[s]|
    requires EntryIndex(b[s][i].entries, l).None?
    ensures var mb := b[s][i];
      var b' := b[s := b[s][i := mb.(entries := mb.entries + [Entry(l, o)])]];
      WellFormed(b') &&
      forall f :: Lookup(b', f) == if f == Face(s, mb.medium, l) then Some(o) else Lookup(b, f)
  {
    var mb := b[s][i];
    var es' := mb.entries + [Entry(l, o)];
    var ms' := b[s][i := mb.(entries := es')];
    var b' := b[s := ms'];
    assert BucketWellFormed(b[s]);
    assert UniqueLargest(mb.entries);
    assert UniqueLargest(es');
    assert BucketWellFormed(ms');
    assert WellFormed(b') by {
      forall s' | 0 <= s' < |b'| ensures BucketWellFormed(b'[s']) {
        if s' != s {
          assert BucketWellFormed(b[s']);
        }
      }
    }
    forall f ensures Lookup(b', f) == if f == Face(s, mb.medium, l) then Some(o) else Lookup(b, f) {
      if f.smaller == s {
        assert forall i' :: 0 <= i' < |ms'| ==> ms'[i'].medium == b[s][i'].medium;
        var mi, mi' := MediumIndex(b[s], f.medium), MediumIndex(ms', f.medium);
        assert mi == mi';
        if mi == Some(i) {
          EntryIndexAppend(mb.entries, Entry(l, o), f.larger);
        }
      }
    }
  }

  /** `push` of a new `(medium, [record])` pair onto a bucket without that medium. */
  lemma {:induction false} AppendMediumAt(b: Store, s: nat, m: nat, l: nat, o: Owners)
    requires WellFormed(b)
    requires s < |b|
    requires MediumIndex(b[s], m).None?
    ensures var b' := b[s := b[s] + [MediumBucket(m, [Entry(l, o)])]];
      WellFormed(b') &&
      forall f :: Lookup(b', f) == if f == Face(s, m, l) then Some(o) else Lookup(b, f)
  {
    var ms' := b[s] + [MediumBucket(m, [Entry(l, o)])];
    var b' := b[s := ms'];
    assert BucketWellFormed(b[s]);
    assert UniqueLargest([Entry(l, o)]);
    assert BucketWellFormed(ms');
    assert WellFormed(b') by {
      forall s' | 0 <= s' < |b'| ensures BucketWellFormed(b'[s']) {
        if s' != s {
          assert BucketWellFormed(b[s']);
        }
      }
    }
    forall f ensures Lookup(b', f) == if f == Face(s, m, l) then Some(o) else Lookup(b, f) {
      if f.smaller == s {
        MediumIndexAppend(b[s], MediumBucket(m, [Entry(l, o)]), f.medium);
        assert EntryIndex([Entry(l, o)], f.larger) == if f.larger == l then Some(0) else None;
      }
    }
  }

  /** The position of a stored key, in the order in which the store is traversed. */
  ghost predicate StoredBefore(b: Store, f: Face, s: nat, i: nat, j: nat) {
    Lookup(b, f).Some? &&
    var mi := MediumIndex(b[f.smaller], f.medium).value;
    var ei := EntryIndex(b[f.smaller][mi].entries, f.larger).value;
    f.smaller < s || (f.smaller == s && (mi < i || (mi == i && ei < j)))
  }

  /** Passing the record at `(s, i, j)` adds exactly its key to the keys already passed. */
  lemma {:induction false} StoredBeforeStep(b: Store, s: nat, i: nat, j: nat)
    requires WellFormed(b)
    requires s < |b| && i < |b[s]| && j < |b[s][i].entries|
    ensures forall f :: StoredBefore(b, f, s, i, j + 1) <==> StoredBefore(b, f, s, i, j) || f == KeyAt(b, s, i, j)
    ensures !StoredBefore(b, KeyAt(b, s, i, j), s, i, j)
  {
    var g := KeyAt(b, s, i, j);
    assert BucketWellFormed(b[s]);
    assert MediumIndex(b[s], g.medium) == Some(i);
    assert UniqueLargest(b[s][i].entries);
    assert EntryIndex(b[s][i].entries, g.larger) == Some(j);
  }

  /** Every stored key is passed once the whole store is traversed, and none before it starts. */
  lemma {:induction false} StoredBeforeBounds(b: Store, f: Face)
    ensures !StoredBefore(b, f, 0, 0, 0)
    ensures StoredBefore(b, f, |b|, 0, 0) <==> Lookup(b, f).Some?
  {
  }

  /** A store change that affects only the key `f` refines the map update at `f`. */
  lemma {:induction false} UpdateRefines(b: Store, b': Store, faces: map<Face, Owners>, f: Face, o: Owners)
    requires forall g :: Lookup(b, g) == Get(faces, g)
    requires forall g :: Lookup(b', g) == if g == f then Some(o) else Lookup(b, g)
    ensures forall g :: Lookup(b', g) == Get(faces[f := o], g)
  {
    forall g ensures Lookup(b', g) == Get(faces[f := o], g) {
      if g != f {
        assert Lookup(b, g) == Get(faces, g);
      }
    }
  }
}
