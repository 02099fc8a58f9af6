/**
  src/indexer/segment_entry.rs: the mutable record an index writer holds for
  each segment of its active set. It keeps the segment's descriptor, the
  bitset of documents deleted during the commit itself, the segment's position
  in the delete queue, and the segment's directory.
*/
module SegmentEntries {
  import opened Wrappers
  import opened Directory
  import opened IndexTypes
  import opened Segments

  /** Why `persist` fails: its body is `unimplemented!()`. */
  datatype PersistError = Unimplemented

  class SegmentEntry {
    var meta: SegmentMeta
    var deleteBitset: Option<BitSet>
    var deleteCursor: DeleteCursor
    var directory: SegmentDirectory

    /** `SegmentEntry::new`: every argument is stored as given. */
    constructor (segmentMeta: SegmentMeta, deleteCursor: DeleteCursor,
                 deleteBitset: Option<BitSet>, directory: SegmentDirectory)
      ensures this.meta == segmentMeta
      ensures this.deleteCursor == deleteCursor
      ensures this.deleteBitset == deleteBitset
      ensures this.directory == directory
    {
      this.meta := segmentMeta;
      this.deleteBitset := deleteBitset;
      this.deleteCursor := deleteCursor;
      this.directory := directory;
    }

    /**
      `SegmentEntry::persist`: never succeeds, since it stops at
      `unimplemented!()` before the assignment of `directory` that follows. It
      has no `modifies` clause, so the entry, its directory included, is left
      as it was.
    */
    method Persist(managed: ManagedDirectory) returns (r: Result<(), PersistError>)
      ensures r == Err(Unimplemented)
    {
      r := Err(Unimplemented);
    }

    /** `SegmentEntry::delete_bitset`: the stored option, `None` included. */
    function DeleteBitset(): (r: Option<BitSet>)
      reads this
      ensures r == deleteBitset
    {
      deleteBitset
    }

    /**
      `SegmentEntry::set_meta`: the descriptor is replaced wholesale; the
      bitset, the cursor and the directory are kept.
    */
    method SetMeta(segmentMeta: SegmentMeta)
      modifies this`meta
      ensures meta == segmentMeta
      ensures deleteBitset == old(deleteBitset)
      ensures deleteCursor == old(deleteCursor)
      ensures directory == old(directory)
    {
      meta := segmentMeta;
    }

    /** `SegmentEntry::delete_cursor`, read side: the stored cursor. */
    function DeleteCursor(): (r: DeleteCursor)
      reads this
      ensures r == deleteCursor
    {
      deleteCursor
    }

    /**
      `SegmentEntry::delete_cursor`, write side: whatever the caller does
      through the `&mut DeleteCursor` it hands out, given as `step`. Only the
      cursor changes.
    */
    method UpdateDeleteCursor(step: DeleteCursor -> DeleteCursor)
      modifies this`deleteCursor
      ensures deleteCursor == step(old(deleteCursor))
      ensures meta == old(meta)
      ensures deleteBitset == old(deleteBitset)
      ensures directory == old(directory)
    {
      deleteCursor := step(deleteCursor);
    }

    /** `SegmentEntry::segment_id`: the descriptor's identifier. */
    function SegmentId(api: MetaApi): (r: SegmentId)
      reads this
      ensures r == api.id(meta)
    {
      api.id(meta)
    }

    /** `SegmentEntry::meta`: the stored descriptor. */
    function Meta(): (r: SegmentMeta)
      reads this
      ensures r == meta
    {
      meta
    }
  }

  /**
    What an orchestrator can rely on when it registers a segment, replaces its
    descriptor, advances its cursor and then tries to persist it: the attempt
    fails, and the bitset and the directory are still the ones it was given.
  */
  method RegisterUpdatePersist(api: MetaApi, meta: SegmentMeta, cursor: DeleteCursor,
                               bitset: Option<BitSet>, directory: SegmentDirectory,
                               newMeta: SegmentMeta, step: DeleteCursor -> DeleteCursor,
                               managed: ManagedDirectory)
    returns (e: SegmentEntry, persisted: Result<(), PersistError>)
    ensures persisted.Err?
    ensures e.Meta() == newMeta && e.SegmentId(api) == api.id(newMeta)
    ensures e.DeleteCursor() == step(cursor)
    ensures e.DeleteBitset() == bitset && e.directory == directory
  {
    e := new SegmentEntry(meta, cursor, bitset, directory);
    e.SetMeta(newMeta);
    e.UpdateDeleteCursor(step);
    persisted := e.Persist(managed);
  }
}
