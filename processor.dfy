/** The file and directory metadata processors. Each reads a marker-delimited block,
    parses it into a fresh container and, depending on the container's `recursive`
    directive, merges in what the processor of the containing directory returns.
    The filesystem is a finite map; the depth of Python's call chain is `fuel`. */
module MetadataProcessor {
  import opened Wrappers
  import opened Paths
  import opened Markers
  import opened Results

  const BeginHeader: string := "@REVIEW-METADATA-BEGIN"
  const EndHeader: string := "@REVIEW-METADATA-END"
  const MetadataFileName: string := "review.metadata"

  /** The marker pair a processor searches for (`begin_header`, `end_header`). */
  datatype Headers = Headers(begin: string, end: string)

  /** What is at a path that exists: readable text, or something `open`/`read` fails on. */
  datatype Entry = Text(content: string) | Unreadable

  /** The paths that exist; `os.path.exists(p)` is `p in fs`. */
  type FileSystem = map<Path, Entry>

  /** Python truthiness of `results.recursive`: present and not the empty string. */
  predicate Truthy(v: Option<string>): (b: bool)
    ensures v.None? || v == Some("") ==> !b
    ensures v == Some("0") ==> b
  {
    v.Some? && v.value != ""
  }

  /** The metadata block of a changed file: `""` when the file is missing or has no markers. */
  function FileBlock(fs: FileSystem, h: Headers, path: Path): (r: Result<string, Error>)
    ensures r.Err? <==> path in fs && fs[path].Unreadable?
    ensures r.Err? ==> r.error == ReadFailed(path)
    ensures path !in fs ==> r == Ok("")
    ensures r.Ok? && r.value != "" ==> path in fs && Search(fs[path].content, h.begin, h.end) == Some(r.value)
    ensures path in fs && fs[path].Text? && Search(fs[path].content, h.begin, h.end).Some? ==>
              r == Ok(Search(fs[path].content, h.begin, h.end).value)
  {
    if path !in fs then Ok("")
    else
      match fs[path]
      case Unreadable => Err(ReadFailed(path))
      case Text(content) => Ok(Search(content, h.begin, h.end).GetOr(""))
  }

  /** The metadata block of a directory: `""` when it has no review.metadata,
      `None` when its review.metadata has no markers. */
  function DirBlock(fs: FileSystem, h: Headers, dir: Path): (r: Result<Option<string>, Error>)
    ensures r.Err? <==> Join(dir, MetadataFileName) in fs && fs[Join(dir, MetadataFileName)].Unreadable?
    ensures r.Err? ==> r.error == ReadFailed(Join(dir, MetadataFileName))
    ensures Join(dir, MetadataFileName) !in fs ==> r == Ok(Some(""))
    ensures r == Ok(None) <==>
              Join(dir, MetadataFileName) in fs && fs[Join(dir, MetadataFileName)].Text?
              && Search(fs[Join(dir, MetadataFileName)].content, h.begin, h.end).None?
    ensures Join(dir, MetadataFileName) in fs && fs[Join(dir, MetadataFileName)].Text? ==>
              r == Ok(Search(fs[Join(dir, MetadataFileName)].content, h.begin, h.end))
  {
    var reviewMetadata := Join(dir, MetadataFileName);
    if reviewMetadata !in fs then Ok(Some(""))
    else
      match fs[reviewMetadata]
      case Unreadable => Err(ReadFailed(reviewMetadata))
      case Text(content) => Ok(Search(content, h.begin, h.end))
  }

  /** The file's own results, before anything is merged in. */
  function FileLocal<A>(ops: ResultOps<A>, fs: FileSystem, h: Headers, path: Path, rel: Path): (r: Result<A, Error>)
    ensures r.Err? <==> path in fs && fs[path].Unreadable?
    ensures path !in fs ==> r == Ok(ops.empty)
  {
    var metadata :- FileBlock(fs, h, path);
    Parsed(ops, Some(metadata), rel)
  }

  /** A directory's own results, before anything is merged in. */
  function DirLocal<A>(ops: ResultOps<A>, fs: FileSystem, h: Headers, dir: Path, rel: Path): (r: Result<A, Error>)
    ensures r.Err? <==> DirBlock(fs, h, dir).Err? || DirBlock(fs, h, dir) == Ok(None)
    ensures Join(dir, MetadataFileName) !in fs ==> r == Ok(ops.empty)
  {
    var metadata :- DirBlock(fs, h, dir);
    Parsed(ops, metadata, rel)
  }

  /** `try: results += parent() except Exception: pass`. */
  function Absorb<A>(ops: ResultOps<A>, results: A, parent: Result<A, Error>): A {
    match parent
    case Ok(p) => ops.merge(results, p)
    case Err(_) => results
  }

  /** What `DirectoryMetadataProcessor(dir, rel).parse_metadata()` returns or raises
      when at most `fuel` more levels fit on the call chain. */
  function DirResolution<A>(ops: ResultOps<A>, fs: FileSystem, h: Headers, dir: Path, rel: Path, fuel: nat): (r: Result<A, Error>)
    decreases fuel
    ensures r == Err(RecursionLimitExceeded) <==> fuel == 0
    ensures r.Err? && fuel > 0 ==> r.error == ReadFailed(Join(dir, MetadataFileName)) || r.error == SplitlinesOnNone
  {
    if fuel == 0 then Err(RecursionLimitExceeded)
    else
      var results :- DirLocal(ops, fs, h, dir, rel);
      if Truthy(ops.recursive(results)) then
        Ok(Absorb(ops, results, DirResolution(ops, fs, h, Dirname(dir), Dirname(rel), fuel - 1)))
      else
        Ok(results)
  }

  /** What `FileMetadataProcessor(path, rel).parse_metadata()` returns or raises. */
  function FileResolution<A>(ops: ResultOps<A>, fs: FileSystem, h: Headers, path: Path, rel: Path, fuel: nat): (r: Result<A, Error>)
    ensures r.Err? <==> FileLocal(ops, fs, h, path, rel).Err?
    ensures r.Ok? && ops.recursive(FileLocal(ops, fs, h, path, rel).value) == Some("0") ==> r == FileLocal(ops, fs, h, path, rel)
  {
    var results :- FileLocal(ops, fs, h, path, rel);
    if ops.recursive(results) != Some("0") then
      Ok(Absorb(ops, results, DirResolution(ops, fs, h, Dirname(path), Dirname(rel), fuel)))
    else
      Ok(results)
  }

  /** The directory level goes on to its parent. */
  predicate DirClimbs<A>(ops: ResultOps<A>, fs: FileSystem, h: Headers, dir: Path, rel: Path) {
    DirLocal(ops, fs, h, dir, rel).Ok? && Truthy(ops.recursive(DirLocal(ops, fs, h, dir, rel).value))
  }

  /** The file level goes on to its directory. */
  predicate FileClimbs<A>(ops: ResultOps<A>, fs: FileSystem, h: Headers, path: Path, rel: Path) {
    FileLocal(ops, fs, h, path, rel).Ok? && ops.recursive(FileLocal(ops, fs, h, path, rel).value) != Some("0")
  }

  /** The (absolute, relative) path pairs of the directory levels whose review.metadata
      is looked up, bottom first. */
  ghost function DirLevels<A>(ops: ResultOps<A>, fs: FileSystem, h: Headers, dir: Path, rel: Path, fuel: nat): seq<(Path, Path)> {
    Climb(Dirname, (d, r) => DirClimbs(ops, fs, h, d, r), dir, rel, fuel)
  }

  /** The review.metadata paths of a list of levels. */
  ghost function MetadataPaths(levels: seq<(Path, Path)>): seq<Path>
    decreases |levels|
  {
    if levels == [] then [] else [Join(levels[0].0, MetadataFileName)] + MetadataPaths(levels[1..])
  }

  /** Every review.metadata path the directory walk consults, bottom first. */
  ghost function DirLookups<A>(ops: ResultOps<A>, fs: FileSystem, h: Headers, dir: Path, rel: Path, fuel: nat): seq<Path> {
    MetadataPaths(DirLevels(ops, fs, h, dir, rel, fuel))
  }

  /** Every path the file walk consults, in order: the file, then the directory walk. */
  ghost function FileLookups<A>(ops: ResultOps<A>, fs: FileSystem, h: Headers, path: Path, rel: Path, fuel: nat): seq<Path> {
    [path] + (if FileClimbs(ops, fs, h, path, rel) then DirLookups(ops, fs, h, Dirname(path), Dirname(rel), fuel) else [])
  }

  class DirectoryMetadataProcessor {
    const beginHeader: string := BeginHeader
    const endHeader: string := EndHeader
    const directoryPath: Path
    const directoryRelativePath: Path

    constructor (directoryPath: Path, directoryRelativePath: Path)
      ensures this.directoryPath == directoryPath && this.directoryRelativePath == directoryRelativePath
    {
      this.directoryPath := directoryPath;
      this.directoryRelativePath := directoryRelativePath;
    }

    /** `parse_metadata()`; a result of `Err` is an exception for the caller. */
    method ParseMetadata<A>(ops: ResultOps<A>, fs: FileSystem, fuel: nat) returns (r: Result<A, Error>)
      decreases fuel
      ensures r == DirResolution(ops, fs, Headers(beginHeader, endHeader), directoryPath, directoryRelativePath, fuel)
    {
      if fuel == 0 {
        return Err(RecursionLimitExceeded);
      }
      var reviewMetadata := Join(directoryPath, MetadataFileName);
      var metadata: Option<string>;
      if reviewMetadata in fs {
        match fs[reviewMetadata] {
          case Unreadable =>
            return Err(ReadFailed(reviewMetadata));
          case Text(content) =>
            metadata := Search(content, beginHeader, endHeader);
        }
      } else {
        metadata := Some("");
      }
      ghost var h := Headers(beginHeader, endHeader);
      assert DirBlock(fs, h, directoryPath) == Ok(metadata);
      var results :- ParseMetadataBlock(ops, metadata, directoryRelativePath);
      assert DirLocal(ops, fs, h, directoryPath, directoryRelativePath) == Ok(results);
      if Truthy(ops.recursive(results)) {
        var directoryPathDirname := Dirname(directoryPath);
        var directoryRelativePathDirname := Dirname(directoryRelativePath);
        var parentProcessor := new DirectoryMetadataProcessor(directoryPathDirname, directoryRelativePathDirname);
        var parent := parentProcessor.ParseMetadata(ops, fs, fuel - 1);
        if parent.Ok? {
          results := ops.merge(results, parent.value);
        }
      }
      return Ok(results);
    }
  }

  class FileMetadataProcessor {
    const beginHeader: string := BeginHeader
    const endHeader: string := EndHeader
    const path: Path
    const changedFileRelativePath: Path

    constructor (changedFilePath: Path, changedFileRelativePath: Path)
      ensures path == changedFilePath && this.changedFileRelativePath == changedFileRelativePath
    {
      path := changedFilePath;
      this.changedFileRelativePath := changedFileRelativePath;
    }

    /** `parse_metadata()`; `fuel` is how many directory levels still fit on the call chain. */
    method ParseMetadata<A>(ops: ResultOps<A>, fs: FileSystem, fuel: nat) returns (r: Result<A, Error>)
      ensures r == FileResolution(ops, fs, Headers(beginHeader, endHeader), path, changedFileRelativePath, fuel)
    {
      var metadata: string;
      if path !in fs {
        metadata := "";
      } else {
        match fs[path] {
          case Unreadable =>
            return Err(ReadFailed(path));
          case Text(content) =>
            var found := Search(content, beginHeader, endHeader);
            if found.Some? {
              metadata := found.value;
            } else {
              metadata := "";
            }
        }
      }
      var parsed := ParseMetadataBlock(ops, Some(metadata), changedFileRelativePath);
      assert parsed.Ok?;  // `_parse_metadata` raises only on `None`
      var results := parsed.value;
      if ops.recursive(results) != Some("0") {
        var parentProcessor := new DirectoryMetadataProcessor(Dirname(path), Dirname(changedFileRelativePath));
        var parent := parentProcessor.ParseMetadata(ops, fs, fuel);
        if parent.Ok? {
          results := ops.merge(results, parent.value);
        }
      }
      return Ok(results);
    }
  }
}
