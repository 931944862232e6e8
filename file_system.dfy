/** The temporary video directories, seen as one table from path to entry, and
    the one mutating primitive the code uses on it: `Path.unlink()`. */
module FileSystem {
  import opened Base
  import opened Text
  import opened PyText

  /** A regular file (with its modification time, in whole seconds) or a
      directory. */
  datatype Entry = File(mtime: int) | Dir

  /** The `OSError`s `unlink` raises. */
  datatype OsError = NotFound | IsADirectory | PermissionDenied

  /** `str(Path(dir) / name)`. */
  function JoinPath(dir: string, name: string): string
  {
    dir + "/" + name
  }

  /** `str(e)` of the `OSError` raised for `path`, as CPython words it on Linux:
      the errno, its message and the `repr` of the file name. */
  function OsErrorText(e: OsError, path: string): string
  {
    match e
    case NotFound => "[Errno 2] No such file or directory: " + PyRepr(path)
    case IsADirectory => "[Errno 21] Is a directory: " + PyRepr(path)
    case PermissionDenied => "[Errno 13] Permission denied: " + PyRepr(path)
  }

  /** What `unlink` of `path` raises, if anything. `locked` holds the paths the
      process may not remove because it lacks write or search permission on
      the parent directory. As on Linux, that permission is checked before
      the directory test, so a locked directory raises the permission error. */
  function UnlinkError(entries: map<string, Entry>, locked: set<string>, path: string): (e: Option<OsError>)
    ensures e.None? <==> path in entries && entries[path].File? && path !in locked
    ensures e == Some(NotFound) <==> path !in entries
    ensures e == Some(PermissionDenied) <==> path in entries && path in locked
    ensures e == Some(IsADirectory) <==> path in entries && path !in locked && entries[path].Dir?
  {
    if path !in entries then Some(NotFound)
    else if path in locked then Some(PermissionDenied)
    else if entries[path].Dir? then Some(IsADirectory)
    else None
  }

  /** The file system: its entries change in place; which paths refuse to be
      removed is fixed. */
  class Disk {
    var entries: map<string, Entry>
    const locked: set<string>

    constructor (entries0: map<string, Entry>, locked0: set<string>)
      ensures entries == entries0 && locked == locked0
    {
      entries := entries0;
      locked := locked0;
    }

    /** `Path(path).unlink()`: removes a regular file, or raises. */
    method Unlink(path: string) returns (err: Option<OsError>)
      modifies this
      ensures err == UnlinkError(old(entries), locked, path)
      ensures entries == if err.None? then old(entries) - {path} else old(entries)
    {
      err := UnlinkError(entries, locked, path);
      if err.None? {
        entries := entries - {path};
      }
    }

    /** What the extraction library leaves at `path` when it writes there. */
    method Write(path: string, e: Entry)
      modifies this
      ensures entries == old(entries)[path := e]
    {
      entries := entries[path := e];
    }
  }
}
