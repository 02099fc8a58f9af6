/**
  The collaborators the segment handle layer consumes without owning them:
  the schema, the segment descriptor and identifier, the component kinds, the
  delete bitset and delete cursor, and the index. Their definitions live in
  code that is not part of this model, so the types are abstract and the
  descriptor's own methods are gathered in `MetaApi`, which every operation
  that needs them takes as a parameter: whatever is proved holds for every
  implementation of them.
*/
module IndexTypes {
  import opened Directory

  /** Rust's `u32` (`max_doc`, `num_deleted_docs`). */
  newtype u32 = x: int | 0 <= x < 0x1_0000_0000

  /** Rust's `u64`: an `Opstamp`. */
  newtype u64 = x: int | 0 <= x < 0x1_0000_0000_0000_0000

  type Opstamp = u64

  /** The index's field definitions, shared read-only by its segments. */
  type Schema(==)

  /** `SegmentMeta`: the segment descriptor, an immutable value. */
  type SegmentMeta(==)

  /** `SegmentId`: the segment's identifier. */
  type SegmentId(==)

  /** `SegmentComponent`: a kind of file a segment may have. */
  type SegmentComponent(==)

  /** `BitSet`: the pending-deletion bitset; its contents are not modelled. */
  type BitSet(==)

  /** `DeleteCursor`: a position in the delete queue; not modelled further. */
  type DeleteCursor(==)

  /**
    The methods of `SegmentMeta` that segment.rs and segment_entry.rs call,
    as uninterpreted total functions.
  */
  datatype MetaApi = MetaApi(
    id: SegmentMeta -> SegmentId,
    relativePath: (SegmentMeta, SegmentComponent) -> Path,
    withMaxDoc: (SegmentMeta, u32) -> SegmentMeta,
    withDeleteMeta: (SegmentMeta, u32, Opstamp) -> SegmentMeta)

  /** What a segment reads from its `Index`: `directory()` and `schema()`. */
  datatype Index = Index(directory: ManagedDirectory, schema: Schema)
}
