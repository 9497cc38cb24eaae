/**
 Values shared by every part of the filesystem model: bytes, the optional and
 failure-carrying wrappers, the errors an operation can end with, and the
 attribute record handed back by `getattr`.
 */
module Types {

  /** One octet of file content. */
  newtype byte = x: int | 0 <= x < 256

  datatype Option<+T> = None | Some(value: T)

  /** The POSIX error numbers the filesystem raises (as `FuseOSError`). */
  datatype Errno = ENOENT | EPERM | EINVAL | ENODATA

  /**
   Every way an operation can end without a value: a POSIX error for the
   kernel, or a Python exception that escapes the handler.  `HttpError` is the
   exception `raise_for_status` raises.  `ScriptEnded` belongs to the model,
   not the program: the network is a finite script of server responses, and
   this is the outcome when the program would ask for more than the script
   holds (for instance, while the server is still answering 429, on which the
   program keeps retrying).
   */
  datatype Error =
    | Os(errno: Errno)
    | ValueError
    | KeyError
    | TypeError
    | IndexError
    | AssertionError
    | HttpError(status: int)
    | ScriptEnded

  datatype Result<+T> = Ok(value: T) | Err(error: Error) {
    predicate IsFailure() { Err? }

    function PropagateFailure<U>(): Result<U>
      requires Err?
    {
      Err(error)
    }

    function Extract(): T
      requires Ok?
    {
      value
    }
  }

  /** File-type and permission bits of `st_mode` (Linux values). */
  const S_IFDIR: int := 0x4000
  const S_IFREG: int := 0x8000
  const S_IFLNK: int := 0xA000
  const S_IWUSR: int := 0x80
  /** Octal 0o555, 0o444 and 0o600. */
  const PERM_R_X: int := 0x16D
  const PERM_R: int := 0x124
  const PERM_RW_OWNER: int := 0x180

  /** The extended attributes both backends offer on an emoji file: its URL and who created it. */
  const URL_XATTR: string := "user.url"
  const CREATEDBY_XATTR: string := "user.created_by"

  /**
   The attribute fields the model keeps: mode, link count and (for files)
   size.  Timestamps and owner ids are not modelled.  The type bits and the
   permission bits never overlap, so the source's `|` is written `+`.
   */
  datatype Stat = Stat(mode: int, nlink: int, size: Option<int>)

  function DirStat(perm: int): Stat { Stat(S_IFDIR + perm, 2, None) }
}
