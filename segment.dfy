/**
  src/core/segment.rs: the segment handle. A `Segment` is a value made of the
  index's schema, the segment descriptor and a `SegmentDirectory`, the tagged
  union of the two storage backends. Every file of the segment is addressed
  through `relative_path`, and every read or write is handed on to whichever
  backend is active.
*/
module Segments {
  import opened Wrappers
  import opened Directory
  import opened IndexTypes

  /** `SegmentDirectory`: exactly one of the two backends is active. */
  datatype SegmentDirectory = Persisted(managed: ManagedDirectory) | Volatile(ram: RAMDirectory)

  /** `From<ManagedDirectory>`: a durable directory becomes the `Persisted` variant. */
  function FromManaged(d: ManagedDirectory): (r: SegmentDirectory)
    ensures r.Persisted? && r.managed == d
  {
    Persisted(d)
  }

  /** `Deref`: the directory of the active variant. */
  function Target(d: SegmentDirectory): (st: FileStore)
    ensures d.Persisted? ==> st == d.managed.store
    ensures d.Volatile? ==> st == d.ram.store
  {
    match d
    case Volatile(dir) => dir.store
    case Persisted(dir) => dir.store
  }

  /**
    `DerefMut`, modelled on values: the directory after the active variant's
    directory has been replaced by `st` through the mutable reference. The
    variant stays the same and the other variant is never touched.
  */
  function WithTarget(d: SegmentDirectory, st: FileStore): (r: SegmentDirectory)
    ensures r.Persisted? == d.Persisted?
    ensures Target(r) == st
  {
    match d
    case Volatile(dir) => Volatile(dir.(store := st))
    case Persisted(dir) => Persisted(dir.(store := st))
  }

  /** `Deref` and `DerefMut` address one and the same directory. */
  lemma TargetLens(d: SegmentDirectory, a: FileStore, b: FileStore)
    ensures WithTarget(d, Target(d)) == d
    ensures Target(WithTarget(d, a)) == a
    ensures WithTarget(WithTarget(d, a), b) == WithTarget(d, b)
  {
  }

  /** `Segment`: schema, descriptor and directory. */
  datatype Segment = Segment(schema: Schema, meta: SegmentMeta, directory: SegmentDirectory)

  /**
    `Segment::for_index`: a segment backed by the index's own durable directory,
    with the index's schema and the given descriptor. `persisted` is not read.
  */
  function ForIndex(index: Index, meta: SegmentMeta, persisted: bool): (s: Segment)
    ensures s.directory == FromManaged(index.directory)
    ensures s.schema == index.schema && s.meta == meta
  {
    Segment(index.schema, meta, FromManaged(index.directory))
  }

  /** The `persisted` flag of `for_index` has no effect on the segment built. */
  lemma ForIndexIgnoresPersisted(index: Index, meta: SegmentMeta)
    ensures ForIndex(index, meta, true) == ForIndex(index, meta, false)
  {
  }

  /**
    `Segment::new_unpersisted`: a segment on a fresh in-memory directory, with
    the given descriptor and schema.
  */
  function NewUnpersisted(meta: SegmentMeta, schema: Schema): (s: Segment)
    ensures s.directory.Volatile?
    ensures s.schema == schema && s.meta == meta
    ensures Target(s.directory).files == map[] && Target(s.directory).faults == map[]
  {
    Segment(schema, meta, Volatile(CreateRam()))
  }

  /**
    `Segment::with_max_doc`: the same segment with the descriptor replaced by
    `meta.with_max_doc(max_doc)`; schema and directory are kept.
  */
  function WithMaxDoc(api: MetaApi, s: Segment, maxDoc: u32): (r: Segment)
    ensures r.schema == s.schema && r.directory == s.directory
    ensures r.meta == api.withMaxDoc(s.meta, maxDoc)
  {
    s.(meta := api.withMaxDoc(s.meta, maxDoc))
  }

  /**
    `Segment::with_delete_meta`: the same segment with the descriptor replaced
    by `meta.with_delete_meta(num_deleted_docs, opstamp)`.
  */
  function WithDeleteMeta(api: MetaApi, s: Segment, numDeletedDocs: u32, opstamp: Opstamp): (r: Segment)
    ensures r.schema == s.schema && r.directory == s.directory
    ensures r.meta == api.withDeleteMeta(s.meta, numDeletedDocs, opstamp)
  {
    s.(meta := api.withDeleteMeta(s.meta, numDeletedDocs, opstamp))
  }

  /** `Segment::id`: the descriptor's identifier. */
  function Id(api: MetaApi, s: Segment): (r: SegmentId)
    ensures r == api.id(s.meta)
  {
    api.id(s.meta)
  }

  /** `Segment::relative_path`: the descriptor's path for `component`. */
  function RelativePath(api: MetaApi, s: Segment, component: SegmentComponent): (r: Path)
    ensures r == api.relativePath(s.meta, component)
  {
    api.relativePath(s.meta, component)
  }

  /** Identifier and paths depend on the descriptor alone, not on schema or directory. */
  lemma AddressingDependsOnMetaOnly(api: MetaApi, s: Segment, s': Segment, component: SegmentComponent)
    requires s.meta == s'.meta
    ensures Id(api, s) == Id(api, s')
    ensures RelativePath(api, s, component) == RelativePath(api, s', component)
  {
  }

  /**
    `Segment::open_read`: the active directory is asked for exactly the file at
    `relative_path(component)`, and its answer, error included, is returned as
    it is.
  */
  function OpenRead(api: MetaApi, s: Segment, component: SegmentComponent)
    : (r: Result<ReadOnlySource, OpenReadError>)
    ensures r == Directory.OpenRead(Target(s.directory), RelativePath(api, s, component))
    ensures var st, p := Target(s.directory), RelativePath(api, s, component);
      && (r.Ok? <==> p !in st.faults && p in st.files)
      && (r.Ok? ==> r.value.data == st.files[p])
      && (p in st.faults ==> r == Err(ReadIoError(st.faults[p])))
      && (p !in st.faults && p !in st.files ==> r == Err(FileDoesNotExist(p)))
  {
    var path := RelativePath(api, s, component);
    Directory.OpenRead(Target(s.directory), path)
  }

  /**
    `Segment::open_write`, modelled on values: the result of asking the active
    directory to create the file at `relative_path(component)`, and the
    segment afterwards. Only the active directory's state can change; schema,
    descriptor and variant are kept, and the directory's error is returned as
    it is. Existing files are kept only when the path is new, which is what the
    directory requires of its callers.
  */
  function OpenWrite(api: MetaApi, s: Segment, component: SegmentComponent)
    : (r: (Result<WritePtr, OpenWriteError>, Segment))
    ensures r.1.schema == s.schema && r.1.meta == s.meta
    ensures r.1.directory.Persisted? == s.directory.Persisted?
    ensures (r.0, Target(r.1.directory))
         == Directory.OpenWrite(Target(s.directory), RelativePath(api, s, component))
    ensures var st, p := Target(s.directory), RelativePath(api, s, component);
      && (r.0.Ok? <==> p !in st.faults && p !in st.files)
      && (r.0.Ok? ==> r.0.value.path == p)
      && (p in st.faults ==> r.1 == s)
      && (p !in st.faults ==> Target(r.1.directory) == st.(files := st.files[p := []]))
      && (p !in st.files ==> Extends(st, Target(r.1.directory)))
  {
    var path := RelativePath(api, s, component);
    var (w, st') := Directory.OpenWrite(Target(s.directory), path);
    (w, s.(directory := WithTarget(s.directory, st')))
  }

  /** One operation of the segment handle that yields a new segment value. */
  datatype SegmentOp =
    | MaxDoc(maxDoc: u32)
    | DeleteMeta(numDeletedDocs: u32, opstamp: Opstamp)
    | OpenForWrite(component: SegmentComponent)

  function Step(api: MetaApi, s: Segment, op: SegmentOp): Segment
  {
    match op
    case MaxDoc(n) => WithMaxDoc(api, s, n)
    case DeleteMeta(k, stamp) => WithDeleteMeta(api, s, k, stamp)
    case OpenForWrite(c) => OpenWrite(api, s, c).1
  }

  /** The segment after the operations `ops`, applied in order. */
  function Run(api: MetaApi, s: Segment, ops: seq<SegmentOp>): Segment
    decreases |ops|
  {
    if ops == [] then s else Run(api, Step(api, s, ops[0]), ops[1..])
  }

  /** The descriptor after `ops`, computed from the descriptor updates alone. */
  function MetaAfter(api: MetaApi, m: SegmentMeta, ops: seq<SegmentOp>): SegmentMeta
    decreases |ops|
  {
    if ops == [] then m
    else
      var m' := match ops[0]
        case MaxDoc(n) => api.withMaxDoc(m, n)
        case DeleteMeta(k, stamp) => api.withDeleteMeta(m, k, stamp)
        case OpenForWrite(_) => m;
      MetaAfter(api, m', ops[1..])
  }

  /**
    `WritesFresh(api, s, ops)`: every `open_write` along `ops` is for a path
    that holds no file at that point, as the directory requires of its callers.
  */
  ghost predicate WritesFresh(api: MetaApi, s: Segment, ops: seq<SegmentOp>)
    decreases |ops|
  {
    ops != [] ==>
      && (ops[0].OpenForWrite? ==> RelativePath(api, s, ops[0].component) !in Target(s.directory).files)
      && WritesFresh(api, Step(api, s, ops[0]), ops[1..])
  }

  /**
    Along any sequence of segment operations: the schema never changes, the
    active variant never changes (nothing here moves a segment from `Volatile`
    to `Persisted`), and the descriptor is determined by the descriptor updates
    alone. When every write opens a new path, no existing file is removed or
    overwritten.
  */
  lemma {:induction false} RunPreserves(api: MetaApi, s: Segment, ops: seq<SegmentOp>)
    ensures Run(api, s, ops).schema == s.schema
    ensures Run(api, s, ops).directory.Persisted? == s.directory.Persisted?
    ensures Run(api, s, ops).meta == MetaAfter(api, s.meta, ops)
    ensures WritesFresh(api, s, ops) ==> Extends(Target(s.directory), Target(Run(api, s, ops).directory))
    decreases |ops|
  {
    if ops != [] {
      var s' := Step(api, s, ops[0]);
      RunPreserves(api, s', ops[1..]);
    }
  }

  /**
    A file that could be read stays readable with the same content after any
    operations that open only new paths for writing, as long as the descriptor
    still maps the component to the same path.
  */
  lemma ReadSurvivesRun(api: MetaApi, s: Segment, ops: seq<SegmentOp>, component: SegmentComponent)
    requires OpenRead(api, s, component).Ok?
    requires WritesFresh(api, s, ops)
    requires api.relativePath(MetaAfter(api, s.meta, ops), component) == RelativePath(api, s, component)
    ensures OpenRead(api, Run(api, s, ops), component) == OpenRead(api, s, component)
  {
    RunPreserves(api, s, ops);
  }

  /**
    Opening an existing component of a segment again fails with
    `FileAlreadyExists` and leaves that component empty: the contents written
    before are gone.
  */
  lemma ReopenTruncates(api: MetaApi, s: Segment, component: SegmentComponent)
    requires OpenRead(api, s, component).Ok?
    ensures OpenWrite(api, s, component).0 == Err(FileAlreadyExists(RelativePath(api, s, component)))
    ensures OpenRead(api, OpenWrite(api, s, component).1, component) == Ok(ReadOnlySource([]))
  {
  }

  /**
    A fresh unpersisted segment has no file; a component opened for writing,
    written and closed is read back unchanged by the segment `with_max_doc`
    returns, provided the new descriptor maps the component to the same path.
  */
  lemma FreshSegmentWriteThenRead(api: MetaApi, meta: SegmentMeta, schema: Schema,
                                  component: SegmentComponent, data: Bytes, maxDoc: u32)
    requires api.relativePath(api.withMaxDoc(meta, maxDoc), component) == api.relativePath(meta, component)
    ensures var s1 := NewUnpersisted(meta, schema);
      && OpenRead(api, s1, component) == Err(FileDoesNotExist(RelativePath(api, s1, component)))
      && OpenWrite(api, s1, component).0.Ok?
    ensures var (w, s1') := OpenWrite(api, NewUnpersisted(meta, schema), component);
      var written := s1'.(directory := WithTarget(s1'.directory, CloseWrite(Target(s1'.directory), w.value, data)));
      var s2 := WithMaxDoc(api, written, maxDoc);
      && s2.meta == api.withMaxDoc(meta, maxDoc)
      && s2.directory.Volatile?
      && OpenRead(api, s2, component) == Ok(ReadOnlySource(data))
  {
  }
}
