/** The part of `std::fs` the notes use, as one mutable file system: file
    contents (`read_to_string`, `OpenOptions::create_new`), the canonical
    form of each resolvable path (`canonicalize`) and directory listings
    (`read_dir`). */
module Fs {
  import opened Errors
  import opened Paths

  /** The I/O error text; the model does not distinguish `io::ErrorKind`s. */
  const IoFailure: string := "io error"

  /** `FileType`: `is_file` holds of `File` only. */
  datatype FileType = File | Dir | Symlink

  /** A `DirEntry`: its path and its type, `None` when asking for the type fails. */
  datatype DirEntry = DirEntry(path: PathBuf, fileType: Option<FileType>)

  /** What a file holds: text, or bytes that are not UTF-8. */
  datatype Contents = Text(text: string) | Bytes

  /** `fs::read_to_string` on the file map `files`: fails with `FileError`
      when there is no such file or its bytes are not UTF-8. */
  function ReadText(files: map<Path, Contents>, p: Path): (r: Result<string>)
    ensures r.Ok? <==> p in files && files[p].Text?
    ensures r.Ok? ==> r.value == files[p].text
    ensures r.Err? ==> r.error == FileError(IoFailure)
  {
    if p in files && files[p].Text? then Ok(files[p].text) else Err(FileError(IoFailure))
  }

  class FileSystem {
    var files: map<Path, Contents>
    /** `canonicalize`: the paths that resolve, and what they resolve to. */
    var canonical: map<Path, PathBuf>
    /** `read_dir`: the listed directories; a `None` item is an entry whose
        reading failed (`flatten` drops it). */
    var listings: map<Path, seq<Option<DirEntry>>>
    /** The absent paths where creating a file fails: a missing parent
        directory, no permission, a directory already at the path. */
    var refused: set<Path>

    constructor (files: map<Path, Contents>, canonical: map<Path, PathBuf>,
                 listings: map<Path, seq<Option<DirEntry>>>, refused: set<Path>)
      ensures this.files == files && this.canonical == canonical && this.listings == listings
      ensures this.refused == refused
    {
      this.files := files;
      this.canonical := canonical;
      this.listings := listings;
      this.refused := refused;
    }

    /** `fs::read_to_string`: fails with `FileError` when there is no such file
        or its bytes are not UTF-8. */
    function ReadToString(p: Path): (r: Result<string>)
      reads this
      ensures r == ReadText(files, p)
    {
      ReadText(files, p)
    }

    /** `Path::canonicalize`. */
    function Canonicalize(p: Path): (r: Result<PathBuf>)
      reads this
      ensures r.Ok? <==> p in canonical
      ensures r.Ok? ==> r.value == canonical[p]
      ensures r.Err? ==> r.error == FileError(IoFailure)
    {
      if p in canonical then Ok(canonical[p]) else Err(FileError(IoFailure))
    }

    /** `fs::read_dir`. */
    function ReadDir(p: Path): (r: Result<seq<Option<DirEntry>>>)
      reads this
      ensures r.Ok? <==> p in listings
      ensures r.Ok? ==> r.value == listings[p]
      ensures r.Err? ==> r.error == FileError(IoFailure)
    {
      if p in listings then Ok(listings[p]) else Err(FileError(IoFailure))
    }

    /** `OpenOptions::new().create_new(true)…open(p)` followed by writing
        `text`: fails with `FileError`, changing nothing, when a file is
        already there or the path is refused. */
    method CreateNew(p: Path, text: string) returns (r: Result<()>)
      modifies this
      ensures p in old(files) || p in old(refused) ==> r == Err(FileError(IoFailure)) && files == old(files)
      ensures p !in old(files) && p !in old(refused) ==> r == Ok(()) && files == old(files)[p := Text(text)]
      ensures canonical == old(canonical) && listings == old(listings) && refused == old(refused)
    {
      if p in files || p in refused {
        r := Err(FileError(IoFailure));
      } else {
        files := files[p := Text(text)];
        r := Ok(());
      }
    }
  }
}
