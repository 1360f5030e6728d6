# Face adjacency and Abaqus output of `delaunay_rust`, modelled in Dafny

This project models two parts of the Delaunay triangulation library `delaunay_rust`.

The first is `Triangulation3Neighborhood`, which finds the neighbours of tetrahedra.
- Every tetrahedron registers its four triangular faces.
- A face is keyed by its three node indices in ascending order.
- The key is stored in a three-level bucket store: the smallest index picks the bucket, the middle index the medium bucket, the largest index the record.
- Each record holds the one or two tetrahedra that own the face.
- `teach_triangles_of_neighborhood` registers a whole mesh, then walks the store. For every face with two owners it writes each owner into the other's neighbour slot for that face.

The second is `AbaqusWriter`, which prints a 2-D triangulation as an Abaqus input file:
- a header;
- a `*Node` section with one numbered line per node;
- an `*Element, type=CPE3` section with one line per triangle, using 1-based node numbers;
- an `*Elset` line listing all element numbers, with a new line after every ten;
- a fixed footer.

## Files

- `wrappers.dfy`: `Option` and map lookup.
- `tetrahedra.dfy`: face keys, `sort_3`, and the parts of a tetrahedron that the builder uses.
- `face_index.dfy`: the abstract specification of the neighbourhood.
  - A map from face key to owners, plus the bucket count.
  - `Register` (one `register_connection`), `RegisterFaces`, `RegisterAll`, `Neighbor` and `Stitched`.
  - Their lemmas, including exactly when the registration pass succeeds.
- `buckets.dfy`: the concrete three-level store.
  - `Lookup` is the store's search, defined by first match.
  - Lemmas that relate each store update to the map update.
- `neighborhood.dfy`: the class `Triangulation3Neighborhood`.
  - It holds the store field and a ghost `faces` map, tied together by `Valid()`.
  - Its methods are proved against the functions of `face_index.dfy`.
  - `TeachTrianglesOfNeighborhood` works in place on an `array<Tetrahedron>`.
- `scenarios.dfy`: the two-tetrahedron unit test, worked out, including the slots that stitching the pair writes.
- `decimal.dfy`, `text.dfy`: the decimal text of naturals, and joining and splitting strings (the reference for reading output back).
- `abaqus_format.dfy`: the text of each section as functions, plus lemmas that read the text back.
- `abaqus_write.dfy`: the class `AbaqusWriter`. It has a string field `writer`, and its methods append to it.
- `abaqus_example.dfy`: the writer's unit test, worked out.

A panic of the source becomes a `Fault` value:
- an out-of-range bucket index is `IndexOutOfBounds`;
- `assert!(e.1.is_some())` failing is `MissingFirstOwner`;
- `assert!(e.2.is_none())` failing is `ThirdOwner`.

`register_connection` grows the store to `larger` buckets, not `larger + 1`. It then indexes bucket `smaller`. So registering a face whose three node indices are equal, at or past the end of the store, panics. The model keeps this behaviour.

## Model

| member | source | states |
|---|---|---|
| Neighborhood.Triangulation3Neighborhood.constructor | src/types/triangulation3/triangulation3_neighborhood.rs:12-14 | a new neighbourhood has no buckets and no faces, and satisfies the store/map invariant |
| Neighborhood.Triangulation3Neighborhood.RegisterConnection | src/types/triangulation3/triangulation3_neighborhood.rs:77-108 | keeps the invariant; its outcome is `Register` on the sorted key: grow to `larger` buckets, panic if bucket `smaller` is missing, record a new face with a first owner, add a second owner, or panic on a third; a panic leaves the face map as it was |
| Neighborhood.Triangulation3Neighborhood.RegisterTetrahedron | src/types/triangulation3/triangulation3_neighborhood.rs:16-20 | registers the four face keys in slot order and stops at the first panic; the new state is `RegisterFaces` of the old one |
| Neighborhood.Triangulation3Neighborhood.GetNeighbor | src/types/triangulation3/triangulation3_neighborhood.rs:22-46 | the result is `Neighbor` on the sorted key: a panic for a missing bucket, no neighbour for an unknown face, otherwise the owner that is not the asking tetrahedron (the first owner when the asker is neither) |
| Neighborhood.Triangulation3Neighborhood.LinkOwners | src/types/triangulation3/triangulation3_neighborhood.rs:58-70 | the two writes for one shared face: the face's slot in `t1` gets `t2`, then the face's slot in `t2` gets `t1`; nothing else changes |
| Neighborhood.Triangulation3Neighborhood.LinkEntry | src/types/triangulation3/triangulation3_neighborhood.rs:57-72 | visiting one record of the store extends the stitched result by that record's face |
| Neighborhood.Triangulation3Neighborhood.LinkSharedFaces | src/types/triangulation3/triangulation3_neighborhood.rs:55-74 | the traversal of the whole store leaves every element exactly as `Stitched` says: each shared face stitched, every other slot untouched |
| Neighborhood.Triangulation3Neighborhood.TeachTrianglesOfNeighborhood | src/types/triangulation3/triangulation3_neighborhood.rs:48-75 | the status is that of `RegisterAll`, which registers element `i` as owner `i`; on success the array becomes `Stitched` of the original; after a panic the array is unchanged |
| Tetrahedra.Sort3Canonical | src/types/triangulation3/triangulation3_neighborhood.rs:23 | the face key is the same for all six orders of the three nodes |
| Tetrahedra.Sort3Has | src/types/triangulation3/triangulation3_neighborhood.rs:78 | the key holds exactly the three given nodes |
| Tetrahedra.FaceKeyStrict | src/types/triangulation3/triangulation3_neighborhood.rs:78-84 | for a tetrahedron with four distinct nodes every face key is strictly ascending, so bucket `smaller` exists once the store has `larger` buckets |
| Tetrahedra.DistinctFaceKeys | src/types/triangulation3/triangulation3_neighborhood.rs:17 | a tetrahedron with four distinct nodes has four distinct face keys |
| FaceIndex.RegisterKeepsInvariant | src/types/triangulation3/triangulation3_neighborhood.rs:80-107 | a successful registration keeps every record's first owner, and keeps every key inside the buckets |
| FaceIndex.RegisterOutcome | src/types/triangulation3/triangulation3_neighborhood.rs:80-107 | registration succeeds exactly when bucket `smaller` exists after the resize and the face doesn't already have two owners; a face with two owners panics with `ThirdOwner`; success adds `t` to `f`, changes no other record, and never shrinks the store |
| FaceIndex.FirstOwnerHasNoNeighbor | src/types/triangulation3/triangulation3_neighborhood.rs:102-107 | after one tetrahedron registers a new face, it sees no neighbour across it |
| FaceIndex.SecondOwnerLinksBoth | src/types/triangulation3/triangulation3_neighborhood.rs:93-98 | after two tetrahedra register the same face, each one sees the other across it |
| FaceIndex.ThirdOwnerFails | src/types/triangulation3/triangulation3_neighborhood.rs:94-95 | a third registration of one face is the `assert!` panic |
| FaceIndex.NeighborPermutationInvariant | src/types/triangulation3/triangulation3_neighborhood.rs:22-23 | `get_neighbor` answers the same for every order of the query nodes |
| FaceIndex.RegisterKeepsOwners | src/types/triangulation3/triangulation3_neighborhood.rs:93-107 | registration keeps every recorded owner and adds exactly `t` to `f` |
| FaceIndex.RegisterFacesFailurePersists | src/types/triangulation3/triangulation3_neighborhood.rs:16-20 | a panic on one face of a tetrahedron is the outcome of the whole `register_tetrahedron` |
| FaceIndex.RegisterFacesKeepsRecords | src/types/triangulation3/triangulation3_neighborhood.rs:16-20 | registering the faces of tetrahedron `n` keeps the invariant, keeps every earlier record, records those faces with `n` as an owner, and adds no other owner |
| FaceIndex.RegisterAllFailurePersists | src/types/triangulation3/triangulation3_neighborhood.rs:50-53 | a panic while registering the first `m` tetrahedra is the outcome of the whole registration loop |
| FaceIndex.RecordsOfPrefix | src/types/triangulation3/triangulation3_neighborhood.rs:50-53 | what the records say about the first `n` tetrahedra does not depend on the tetrahedra after them |
| FaceIndex.RegisterAllRecords | src/types/triangulation3/triangulation3_neighborhood.rs:50-53 | after a successful registration loop, every owner on record is a tetrahedron that has the face, and every face of every tetrahedron is on record with that tetrahedron as an owner |
| FaceIndex.RegisterAllSharedFace | src/types/triangulation3/triangulation3_neighborhood.rs:50-53 | a face of two different tetrahedra has exactly those two as owners |
| FaceIndex.RegisterFaceOutcome | src/types/triangulation3/triangulation3_neighborhood.rs:80-107 | for a strictly ascending face key of tetrahedron `n` that `n` does not own yet, the only possible panic is `ThirdOwner`; there is none when the face does not already belong to two tetrahedra below `n`; success keeps every owner a tetrahedron that has the face and no record names one tetrahedron twice |
| FaceIndex.RegisterFacesOutcome | src/types/triangulation3/triangulation3_neighborhood.rs:16-20 | the same for the faces of a tetrahedron with four distinct nodes, taken in slot order: only `ThirdOwner` can occur, none occurs without a face already shared below `n`, and `n` becomes an owner of the faces registered so far and of nothing else |
| FaceIndex.RegisterAllOutcome | src/types/triangulation3/triangulation3_neighborhood.rs:50-53 | over tetrahedra with distinct nodes, the registration loop can only fail with `ThirdOwner`; on success every owner on record has the face and no record names one tetrahedron twice |
| FaceIndex.RegisterAllWithoutTriples | src/types/triangulation3/triangulation3_neighborhood.rs:50-53 | over tetrahedra with distinct nodes, the registration loop succeeds when no face key belongs to three of them |
| FaceIndex.RegisterAllSucceeds | src/types/triangulation3/triangulation3_neighborhood.rs:50-53 | over tetrahedra with distinct nodes, the registration loop succeeds if and only if no face key belongs to three of them; otherwise it panics on `assert!(e.2.is_none())`; on success no record names one tetrahedron as both owners |
| FaceIndex.LoneFaceHasOneOwner | src/types/triangulation3/triangulation3_neighborhood.rs:50-58 | after a successful loop, a face that belongs to tetrahedron `i` alone is recorded with `i` as its only owner, so the stitching pass leaves its slot as it was |
| FaceIndex.StitchedOverNothing | src/types/triangulation3/triangulation3_neighborhood.rs:55-57 | before the traversal visits any record, no slot has changed |
| FaceIndex.StitchBoundaryStep | src/types/triangulation3/triangulation3_neighborhood.rs:58 | visiting a face without two owners writes nothing |
| FaceIndex.LinkFaceSlot | src/types/triangulation3/triangulation3_neighborhood.rs:60-69 | after the two writes, the face's slot in each owner holds the other owner, and every other slot is as before |
| FaceIndex.StitchInternalSlot | src/types/triangulation3/triangulation3_neighborhood.rs:58-70 | after the two writes for a shared face, each slot is the stitched slot with that face included |
| FaceIndex.StitchInternalStep | src/types/triangulation3/triangulation3_neighborhood.rs:58-70 | the two writes for a shared face are stitching one more face |
| FaceIndex.StitchedLinksSymmetric | src/types/triangulation3/triangulation3_neighborhood.rs:48-75 | after the whole pass, the two owners of each shared face point at each other through that face's slot |
| FaceIndex.StitchedSlotMatchesNeighbor | src/types/triangulation3/triangulation3_neighborhood.rs:48-75 | after the whole pass, a slot of a tetrahedron with distinct nodes holds what `get_neighbor` reports for that face if the face is shared; otherwise the slot keeps its old value |
| FaceIndex.StitchedKeepsBoundarySlots | src/types/triangulation3/triangulation3_neighborhood.rs:58 | slots of faces with one owner are never written |
| Buckets.MediumIndex | src/types/triangulation3/triangulation3_neighborhood.rs:27-30 | the index of the first medium bucket with the given index, or none if no such bucket exists |
| Buckets.EntryIndex | src/types/triangulation3/triangulation3_neighborhood.rs:31-34 | the index of the first record with the given largest index, or none if no such record exists |
| Buckets.GrowKeepsLookups | src/types/triangulation3/triangulation3_neighborhood.rs:80-82 | appending empty buckets keeps the store well formed and changes no lookup |
| Buckets.SetOwnersAt | src/types/triangulation3/triangulation3_neighborhood.rs:96 | overwriting the owners of one record changes the lookup of that face only |
| Buckets.AppendEntryAt | src/types/triangulation3/triangulation3_neighborhood.rs:102 | pushing a new record onto a medium bucket adds exactly that face |
| Buckets.AppendMediumAt | src/types/triangulation3/triangulation3_neighborhood.rs:107 | pushing a new medium bucket adds exactly that face |
| Buckets.LookupAt | src/types/triangulation3/triangulation3_neighborhood.rs:55-57 | the record at a store position is what the lookup finds for that position's key |
| Buckets.StoredBeforeStep | src/types/triangulation3/triangulation3_neighborhood.rs:55-57 | each traversal step passes exactly one new key, and that key has not been passed before |
| NeighborhoodScenarios.TwoTetrahedra | src/types/triangulation3/triangulation3_neighborhood.rs:122-145 | registering tetrahedra 0123 and 1234 succeeds; all nine `get_neighbor` answers of the unit test hold |
| NeighborhoodScenarios.StitchedFirstOfPair | src/types/triangulation3/triangulation3_neighborhood.rs:153-155 | after stitching the pair, tetrahedron 0 has tetrahedron 1 in slot 1 and no neighbour in its other slots |
| NeighborhoodScenarios.StitchedSecondOfPair | src/types/triangulation3/triangulation3_neighborhood.rs:157-159 | after stitching the pair, tetrahedron 1 has tetrahedron 0 in slot 0 and no neighbour in its other slots |
| NeighborhoodScenarios.StitchedPair | src/types/triangulation3/triangulation3_neighborhood.rs:147-159 | `teach_triangles_of_neighborhood` on the pair succeeds and gives exactly the slots that the test's commented-out assertions expect |
| Decimal.ParseNatToString | src/io/abaqus_write.rs:36 | the decimal text of a number reads back as that number |
| Decimal.NatToStringInjective | src/io/abaqus_write.rs:44 | different numbers print differently |
| AbaqusWrite.AbaqusWriter.constructor | src/io/abaqus_write.rs:7-10 | the writer starts from the given buffer, triangulation and number format |
| AbaqusWrite.AbaqusWriter.Write | src/io/abaqus_write.rs:20-26 | appends `Document`: the header, nodes, elements, element set and footer, in that order |
| AbaqusWrite.AbaqusWriter.WriteHeader | src/io/abaqus_write.rs:28-30 | appends the `*Part` header line |
| AbaqusWrite.AbaqusWriter.WriteNodes | src/io/abaqus_write.rs:32-38 | appends the node keyword line, then one line per node, in order |
| AbaqusWrite.AbaqusWriter.WriteElements | src/io/abaqus_write.rs:40-46 | appends the element keyword line, then one line per element, in order |
| AbaqusWrite.AbaqusWriter.WriteElset | src/io/abaqus_write.rs:48-66 | appends the element-set keyword line, the entries after `n` turns of the loop, and a final line break |
| AbaqusWrite.AbaqusWriter.WriteElsetEntry | src/io/abaqus_write.rs:54-61 | one turn of the loop appends a comma unless it is the first entry, a line break before each tenth entry after the first line, and then the number |
| AbaqusWrite.AbaqusWriter.WriteFooter | src/io/abaqus_write.rs:68-82 | appends the fixed footer block |
| AbaqusWrite.WriteToAbaqusFormat | src/io/abaqus_write.rs:6-12 | what follows the buffer's old contents is the whole file for the triangulation |
| AbaqusFormat.ParseElementRowInverse | src/io/abaqus_write.rs:44 | every element line reads back as its 0-based element index and its three 0-based node indices |
| AbaqusFormat.ParseNodeRowInverse | src/io/abaqus_write.rs:36 | every node line reads back as its 0-based node index and the two printed coordinates, when the printed numbers hold no comma |
| AbaqusFormat.NodeSectionLines | src/io/abaqus_write.rs:32-38 | split at line breaks, the node section is the keyword line, then the node lines in node order, then the end of the text |
| AbaqusFormat.ElementSectionLines | src/io/abaqus_write.rs:40-46 | split at line breaks, the element section is the keyword line, then the element lines in element order |
| AbaqusFormat.ElsetEntriesJoin | src/io/abaqus_write.rs:53-63 | the entries are the numbers `1..n` joined by commas, each tenth one after the first starting a new line |
| AbaqusFormat.ElsetEntriesSplit | src/io/abaqus_write.rs:53-63 | split at commas, the entries give back one piece per element, in order |
| AbaqusFormat.ElsetPieceNumber | src/io/abaqus_write.rs:57-61 | piece `w`, without its leading line break, reads back as `w + 1` |
| AbaqusFormat.ElsetNewlines | src/io/abaqus_write.rs:57-59 | `n` entries hold `(n - 1) / 10` line breaks |
| AbaqusFormat.EmptyElset | src/io/abaqus_write.rs:48-66 | with no elements, the element set is its keyword line followed by an empty line |
| AbaqusExample.SquareDocument | src/io/abaqus_write.rs:91-128 | for the unit square of the unit test, the whole file matches the test's expected text line by line, given a number format that prints `0` and `1` |

## Left out

- `src/math/side_of_plane.rs` and `src/math/mod.rs` are not part of this model: geometry predicates with floating point.
- The type `Tetrahedron` is not part of this model. Its face order and `get_neighbor_index` are assumed:
  - face `k` consists of nodes `k`, `k+1` and `k+2` (mod 4), which matches the query order of the unit tests;
  - `get_neighbor_index` is the first slot whose sorted face equals the sorted query.
- `sort_3` is not part of this model; `Sort3` is the obvious ascending sort of three indices.
- `create_initial_tetra_set` and the five-tetrahedron test at lines 162-201 are left out. The test's input comes from a fixture that is not part of this model.
- The call of `teach_triangles_of_neighborhood` at line 151 and the assertions at lines 153-159 are commented out in the source. `StitchedPair` states the slots those assertions expect.
- `Triangle::new` may reorder its nodes and is not part of this model. The unit square's triangles are given as `(0, 2, 1)` and `(0, 3, 2)`, the order the expected output shows.
- Float formatting (`{}` on `f64`) is a parameter `formatFloat: real -> string`. `SquareDocument` assumes it prints `0.0` as `0` and `1.0` as `1`. Coordinates are `real`, so the model has no NaN and no infinities, and it cannot tell `-0.0` (which Rust prints as `-0`) from `0.0`.
- `BufWriter`, the ignored results of `write`, and the bytes it emits are left out. The model's output is a string of characters, the text the bytes encode.
- Index widths (`usize`) are unbounded naturals, and allocation failure is not modelled.
- Neighborhood.Triangulation3Neighborhood.RegisterConnection: after a panic, only the face map is stated unchanged, not the store. The resize happens before the panic, so the store may have grown.
- TeachTrianglesOfNeighborhood: the local neighbourhood object and its store are dropped at the end. Their state after a panic is not stated, because the source unwinds.
- `Stitched` is defined over the set of recorded faces, so the order in which the store is visited makes no difference to it. The model does not state that the result is independent of the order in which the tetrahedra are registered: that order decides which owner is `first`, and no lemma compares two registration orders.
