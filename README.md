# Segment handle layer of tantivy, in Dafny

This project models the segment handle layer of the tantivy search engine:
`src/core/segment.rs` and `src/indexer/segment_entry.rs`.

- `SegmentDirectory` is the tagged union `Persisted | Volatile` over the two
  storage backends. Every directory operation goes to the active variant, and
  nothing here ever changes which variant is active.
- `Segment` is a value `{schema, meta, directory}`. Its constructors fix the
  directory variant. `with_max_doc` and `with_delete_meta` rebuild it with only
  `meta` replaced. `open_read` and `open_write` address the active directory at
  exactly `relative_path(component)` and return its errors unchanged.
- `SegmentEntry` is the mutable record an index writer keeps per segment:
  `{meta, delete_bitset, delete_cursor, directory}`. `set_meta` touches only
  `meta`, the cursor accessor touches only the cursor, and `persist` always
  fails.

Modules:

- `Wrappers` holds `Option` and `Result`.
- `Directory` is the storage capability, abstracted. A directory's state is a
  `FileStore`: a map from `Path` to bytes, plus the paths where the storage
  fails with an I/O error. `RAMDirectory` and `ManagedDirectory` each wrap one
  store.
- `IndexTypes` holds the collaborators, and all of them are abstract types:
  `Schema`, `SegmentMeta`, `SegmentId`, `SegmentComponent`, `BitSet` and
  `DeleteCursor`. The four `SegmentMeta` methods the layer calls (`id`,
  `relative_path`, `with_max_doc`, `with_delete_meta`) are the fields of
  `MetaApi`. `MetaApi` is a record of uninterpreted total functions, and every
  operation that needs them takes it as a parameter, so each proved property
  holds for every implementation of `SegmentMeta`. `Index` provides only
  `directory()` and `schema()`.
- `Segments` models `src/core/segment.rs`.
- `SegmentEntries` models `src/indexer/segment_entry.rs`. `SegmentEntry` is a
  class with `modifies` frames.

The accessors `Segment::schema`, `Segment::meta` and `Segment::directory` are
the datatype's destructors `s.schema`, `s.meta` and `s.directory`. The schema
is a value, so the `clone()` in `schema()` is the identity here.

Three guarantees one might expect of this layer are absent from the code,
and the model follows the code:

- `persist` is a stub that panics.
- `with_delete_meta` does not check its opstamp against the previous one.
- Nothing relates the length of `delete_bitset` to `max_doc`.

## Model

| member | source | states |
|---|---|---|
| `Segments.FromManaged` | src/core/segment.rs:24-28 | converting a `ManagedDirectory` always gives the `Persisted` variant wrapping that same directory |
| `Segments.Target` | src/core/segment.rs:30-39 | `Deref` answers with the store of whichever variant is active |
| `Segments.WithTarget` | src/core/segment.rs:41-48 | writing through `DerefMut` keeps the variant and makes the new store the one `Deref` sees |
| `Segments.TargetLens` | src/core/segment.rs:30-48 | `Deref` and `DerefMut` address the same directory: writing back what was read changes nothing, a write is seen by the next read, and a second write supersedes the first |
| `Segments.ForIndex` | src/core/segment.rs:72-78 | the segment is backed by the index's directory as `Persisted`, carries the index's schema, and stores `meta` unchanged |
| `Segments.ForIndexIgnoresPersisted` | src/core/segment.rs:72-78 | the `persisted` argument has no effect on the segment built |
| `Segments.NewUnpersisted` | src/core/segment.rs:84-90 | the segment stores meta and schema unchanged and is `Volatile` on a fresh directory with no files |
| `Segments.WithMaxDoc` | src/core/segment.rs:101-111 | schema and directory are unchanged, and meta becomes `old_meta.with_max_doc(n)` |
| `Segments.WithDeleteMeta` | src/core/segment.rs:113-120 | schema and directory are unchanged, and meta becomes `old_meta.with_delete_meta(k, opstamp)` |
| `Segments.Id` | src/core/segment.rs:122-125 | the segment's id is its meta's id |
| `Segments.RelativePath` | src/core/segment.rs:127-133 | a component's path is the one its meta gives for that component |
| `Segments.AddressingDependsOnMetaOnly` | src/core/segment.rs:122-133 | two segments with the same meta have the same id and the same paths, whatever their schema and directory |
| `Segments.OpenRead` | src/core/segment.rs:135-143 | the active directory is read at exactly `relative_path(component)`; the call succeeds exactly when that file exists and the storage does not fail there; the bytes returned are the file's; a not-found or I/O error is returned as the directory gives it |
| `Segments.OpenWrite` | src/core/segment.rs:145-153 | the active directory is asked at exactly `relative_path(component)` and its answer, error included, is returned; schema, meta and variant are unchanged; unless the storage fails, the file at that path is empty afterwards, whether the open succeeded or found an existing file (`FileAlreadyExists`); a storage failure leaves the segment unchanged; when the path is new, every other file is kept |
| `Segments.RunPreserves` | src/core/segment.rs:105-153 | after any sequence of `with_max_doc`, `with_delete_meta` and `open_write`: the schema and the active variant are unchanged, and the meta equals the meta updates applied alone; if every write opens a path that holds no file yet, every file that existed is still there with the same bytes |
| `Segments.ReadSurvivesRun` | src/core/segment.rs:101-143 | a component that could be read returns the same result after any sequence of operations whose writes open only new paths, as long as the final meta maps the component to the same path |
| `Segments.ReopenTruncates` | src/core/segment.rs:145-153 | opening an existing component again returns `FileAlreadyExists` with its path, and the component then reads back empty |
| `Segments.FreshSegmentWriteThenRead` | src/core/segment.rs:84-153 | a fresh unpersisted segment has no file for any component; opening a component for writing succeeds; after the bytes are written and `with_max_doc` is applied, the segment is still `Volatile`, has the new meta, and reads back exactly the written bytes (if the path is kept) |
| `Directory.OpenRead` | src/core/segment.rs:141 | the answer of the active directory: the file's bytes, `FileDoesNotExist` for an absent path, or the storage's I/O error |
| `Directory.OpenWrite` | src/core/segment.rs:151 | the answer of the active directory: a handle on a new empty file; or `FileAlreadyExists`, after which the existing file is empty; or the storage's I/O error, with the store unchanged |
| `Directory.CreateRam` | src/core/segment.rs:88 | `RAMDirectory::create()` yields a directory with no file and no failing path |
| `Directory.CloseWrite` | src/core/segment.rs:151 | writing bytes through the handle `open_write` returned and closing it puts exactly those bytes at the handle's path, adds no other file, changes no other file, and leaves the failing paths alone |
| `Directory.WriteReadRoundTrip` | src/core/segment.rs:141-151 | bytes written through a handle from `open_write` are exactly what `open_read` then returns |
| `Directory.OpenWriteIsLocal` | src/core/segment.rs:141-151 | opening one path for writing never changes a read of another path |
| `SegmentEntries.SegmentEntry.constructor` | src/indexer/segment_entry.rs:33-45 | meta, delete cursor, delete bitset and directory are stored exactly as given |
| `SegmentEntries.SegmentEntry.Persist` | src/indexer/segment_entry.rs:47-52 | never succeeds; it has no `modifies` clause, so the `Persisted` swap at line 50 never happens and the directory is unchanged |
| `SegmentEntries.SegmentEntry.DeleteBitset` | src/indexer/segment_entry.rs:54-59 | returns exactly the stored option, so `None` stays `None`; as a function it changes nothing |
| `SegmentEntries.SegmentEntry.SetMeta` | src/indexer/segment_entry.rs:61-64 | `meta()` becomes the new meta; bitset, cursor and directory are unchanged |
| `SegmentEntries.SegmentEntry.DeleteCursor` | src/indexer/segment_entry.rs:66-69 | reading the cursor returns the stored cursor |
| `SegmentEntries.SegmentEntry.UpdateDeleteCursor` | src/indexer/segment_entry.rs:66-69 | a mutation through the `&mut DeleteCursor` changes the cursor only; meta, bitset and directory are unchanged |
| `SegmentEntries.SegmentEntry.SegmentId` | src/indexer/segment_entry.rs:71-74 | the entry's segment id is its current meta's id |
| `SegmentEntries.SegmentEntry.Meta` | src/indexer/segment_entry.rs:76-79 | returns the stored meta |
| `SegmentEntries.RegisterUpdatePersist` | src/indexer/segment_entry.rs:33-69 | build an entry, replace its meta, advance its cursor, then try `persist`: the attempt fails; the entry has the new meta, its id and the advanced cursor; bitset and directory are the ones given |

## Left out

- The internals of `RAMDirectory`, `ManagedDirectory`, `ReadOnlySource` and `WritePtr` are not part of this model. A directory is a file map with failing paths. `Directory.CloseWrite` stands for writing through a `WritePtr` and closing it.
- The internals of `SegmentMeta` and `SegmentId` are not part of this model: the path format, the UUID strings, and what `with_max_doc` and `with_delete_meta` compute. They are the uninterpreted functions of `MetaApi`. So lemmas that need a path to stay put across a meta update take that as a hypothesis.
- Segments.WithMaxDoc: does not require `max_doc` to be 0 beforehand. The doc comment states that usage, and src/core/segment.rs:105-111 does not check it. What `SegmentMeta::with_max_doc` checks is not modelled.
- Segments.WithDeleteMeta: does not require the opstamp to increase, and does not claim `num_deleted_docs <= max_doc`. The code enforces neither.
- Segments.OpenWrite: modelled on values, so it returns the updated segment rather than mutating through `&mut self`. The sharing of one in-memory directory between clones of a segment is not captured.
- Segments.ForIndex: the index's directory is copied, not shared. In tantivy, `index.directory().clone()` is another handle on the same storage. In the model, a write through one segment is seen neither by the index nor by its other segments.
- Directory.OpenWrite: on `FileAlreadyExists` the existing file is left empty, which is what the in-memory backend does. A durable backend may leave it intact, and the model does not tell the two apart. Opening an existing path breaks the directory's requirement that the file be new, so the lemmas that keep files take that requirement as a hypothesis.
- Segments.RunPreserves: keeps existing files only when every write opens a new path (`WritesFresh`). Otherwise `open_write` empties the file it finds.
- Segments.ReadSurvivesRun: holds only for runs whose writes open new paths, for the same reason.
- `DeleteCursor` and the delete queue, and the bits of a `BitSet`, are opaque values. A cursor that only moves forward is not established by this code, so it is not claimed.
- SegmentEntries.SegmentEntry.Persist: the panic of `unimplemented!()` is modelled as an `Unimplemented` error result. No Volatile-to-Persisted copy-and-swap is designed, because the code has none.
- `SerializableSegment` (src/core/segment.rs:156-163) and the `Debug` implementations are left out. They are formatting or serialization interfaces with no behaviour here.
- `Index`, schema contents and schema cloning are external collaborators. An index is just its directory and its schema.
- Concurrency between writer, reader and merge threads is left out. The code has no locking.
