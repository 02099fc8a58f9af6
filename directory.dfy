/**
  The storage capability a segment's files live in, reduced to what the segment
  handle layer relies on. The byte-level implementations (`RAMDirectory`,
  `ManagedDirectory`, `ReadOnlySource`, `WritePtr`) are not part of this model:
  a directory is a map from paths to file contents together with the paths at
  which the underlying storage currently fails with an I/O error.
*/
module Directory {
  import opened Wrappers

  newtype byte = x: int | 0 <= x < 256

  type Bytes = seq<byte>

  /** A relative file path; its format is decided by code outside this model. */
  type Path(==)

  /** The payload of an I/O error raised by the underlying storage. */
  type IoFault(==)

  /** The abstract state of one directory. */
  datatype FileStore = FileStore(files: map<Path, Bytes>, faults: map<Path, IoFault>)

  /** `OpenReadError`: the file is absent, or the storage failed. */
  datatype OpenReadError = FileDoesNotExist(path: Path) | ReadIoError(fault: IoFault)

  /** `OpenWriteError`: the file already exists, or the storage failed. */
  datatype OpenWriteError = FileAlreadyExists(path: Path) | WriteIoError(fault: IoFault)

  /** A read-only view of a whole file. */
  datatype ReadOnlySource = ReadOnlySource(data: Bytes)

  /** An exclusive write handle on the file at `path`. */
  datatype WritePtr = WritePtr(path: Path)

  /** The in-memory backend. */
  datatype RAMDirectory = RAMDirectory(store: FileStore)

  /** The durable backend bound to an index. */
  datatype ManagedDirectory = ManagedDirectory(store: FileStore)

  /** `RAMDirectory::create()`: a fresh in-memory directory holding no file. */
  function CreateRam(): (d: RAMDirectory)
    ensures d.store.files == map[] && d.store.faults == map[]
  {
    RAMDirectory(FileStore(map[], map[]))
  }

  /** `Directory::open_read`: the whole content of the file at `p`. */
  function OpenRead(st: FileStore, p: Path): (r: Result<ReadOnlySource, OpenReadError>)
    ensures r.Ok? <==> p !in st.faults && p in st.files
    ensures r.Ok? ==> r.value.data == st.files[p]
    ensures p in st.faults ==> r == Err(ReadIoError(st.faults[p]))
    ensures p !in st.faults && p !in st.files ==> r == Err(FileDoesNotExist(p))
  {
    if p in st.faults then Err(ReadIoError(st.faults[p]))
    else if p in st.files then Ok(ReadOnlySource(st.files[p]))
    else Err(FileDoesNotExist(p))
  }

  /**
    `Directory::open_write`: a new, empty file at `p` and a handle on it. The
    capability requires that the file does not exist yet. When it does, the
    call fails with `FileAlreadyExists`, and the file is left empty, as the
    in-memory backend leaves it: it writes the empty file before it looks for
    an old one. A failing storage leaves the store as it was.
  */
  function OpenWrite(st: FileStore, p: Path): (r: (Result<WritePtr, OpenWriteError>, FileStore))
    ensures r.0.Ok? <==> p !in st.faults && p !in st.files
    ensures r.0.Ok? ==> r.0.value.path == p
    ensures p in st.faults ==> r.0 == Err(WriteIoError(st.faults[p])) && r.1 == st
    ensures p !in st.faults ==> r.1 == st.(files := st.files[p := []])
    ensures p !in st.faults && p in st.files ==> r.0 == Err(FileAlreadyExists(p))
  {
    if p in st.faults then (Err(WriteIoError(st.faults[p])), st)
    else if p in st.files then (Err(FileAlreadyExists(p)), st.(files := st.files[p := []]))
    else (Ok(WritePtr(p)), st.(files := st.files[p := []]))
  }

  /**
    Writing `data` through the handle `w` and closing it. This stands for the
    `WritePtr` side of the storage capability, which is not part of this model;
    it only lets the lemmas speak of what a reader sees afterwards.
  */
  function CloseWrite(st: FileStore, w: WritePtr, data: Bytes): (st': FileStore)
    ensures st'.files.Keys == st.files.Keys + {w.path} && st'.faults == st.faults
    ensures st'.files[w.path] == data
    ensures forall p :: p in st.files && p != w.path ==> st'.files[p] == st.files[p]
  {
    st.(files := st.files[w.path := data])
  }

  /**
    `Extends(st, st')`: `st'` has every file of `st` with the same content, and
    the same failing paths.
  */
  ghost predicate Extends(st: FileStore, st': FileStore)
  {
    && st'.faults == st.faults
    && (forall p :: p in st.files ==> p in st'.files && st'.files[p] == st.files[p])
  }

  /** The bytes written through a handle are exactly what a later read returns. */
  lemma WriteReadRoundTrip(st: FileStore, p: Path, data: Bytes)
    requires OpenWrite(st, p).0.Ok?
    ensures OpenRead(CloseWrite(OpenWrite(st, p).1, OpenWrite(st, p).0.value, data), p)
         == Ok(ReadOnlySource(data))
  {
  }

  /** Opening one path never changes what a read of another path returns. */
  lemma OpenWriteIsLocal(st: FileStore, p: Path, q: Path)
    requires p != q
    ensures OpenRead(OpenWrite(st, p).1, q) == OpenRead(st, q)
  {
  }
}
