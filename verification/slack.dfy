/**
 The Slack backend: one team's custom emoji as a flat directory of image
 files, aliases appearing as symbolic links.  The state is the write buffer
 of every file being created and the cached emoji listing; the team's
 server enters as parameters: the listing the paged `emoji.adminList` call
 would return, the outcome of each changing call, and the web server
 answering for emoji URLs.
 */
module Slack {
  import opened Types
  import opened PyStr
  import opened PyDict
  import opened WriteBuffer
  import Utils

  /** The fields of one `emoji.adminList` entry the filesystem reads. */
  datatype Emoji = Emoji(name: string, url: string, isAlias: bool, aliasFor: string, userDisplayName: string)

  /**
   The filesystem's state: `_write_buffers` (path to bytes written so far)
   and the one-entry metadata cache (name to emoji, or nothing when cleared).
   */
  datatype SlackFs = SlackFs(buffers: map<string, Bytes>, cache: Option<Dict<string, Emoji>>)

  /** The calls that change the team's emoji, with what they send. */
  datatype Call =
    | EmojiAdd(name: string, image: Bytes)
    | EmojiRemove(name: string)
    | EmojiAlias(name: string, aliasFor: string)

  /** One operation's effect: the state after it, the changing calls it made, and its outcome. */
  datatype Reply<T> = Reply(fs: SlackFs, sent: seq<Call>, out: Result<T>)


  // ----- names and file names -----

  /**
   `_path_to_name`: drop everything through the first `/`, then everything
   from the first `.`.  The name is the longest `.`-free start of what
   follows the first `/` (of the whole path if it has none).
   */
  function PathToName(path: string): (name: string)
    ensures '.' !in name
    ensures var start := if '/' in path then |Before(path, '/')| + 1 else 0;
      start <= |path| && StartsWith(path[start..], name)
      && (start + |name| == |path| || path[start + |name|] == '.')
  {
    var parts := SplitN(path, '/', 1);
    SplitOnceAtFirst(path, '/');
    if |parts| == 2 then
      assert path == parts[0] + "/" + parts[1];
      assert path[|parts[0]| + 1..] == parts[1];
      Before(parts[1], '.')
    else
      Before(parts[0], '.')
  }

  /** The name a file is listed under: the `name=` override when given and non-empty. */
  function ListedName(e: Emoji, nameOverride: Option<string>): string {
    if nameOverride.Some? && nameOverride.value != "" then nameOverride.value else e.name
  }

  /** `url.rsplit('.', maxsplit=1)[-1]`: what follows the last `.` of the URL, or all of it. */
  function HttpExtension(url: string): (ext: string)
    ensures '.' !in ext && EndsWith(url, ext)
    ensures |ext| == |url| || EndsWith(url, "." + ext)
  {
    var pieces := RSplitOnce(url, '.');
    if |pieces| == 2 then
      assert url[|url| - |"." + pieces[1]|..] == "." + pieces[1];
      pieces[1]
    else pieces[0]
  }

  /**
   `url.split('data:image/')[1].split(';', maxsplit=1)[0]` for a URL starting
   with `data:image/`: the MIME subtype, up to the first `;`.
   */
  function DataExtension(url: string): (ext: string)
    requires StartsWith(url, "data:image/")
    ensures ';' !in ext
    ensures StartsWith(url[|"data:image/"|..], ext)
    ensures var end := |"data:image/"| + |ext|;
      end == |url| || url[end] == ';' || OccursAt(url, "data:image/", end)
    ensures forall k :: 0 <= k < |ext| ==> !OccursAt(ext, "data:image/", k)
  {
    var pat := "data:image/";
    var rest := AfterLeading(url, pat);
    var ext := Before(rest, ';');
    var tail := url[|pat|..];
    assert ext == rest[..|ext|] && rest == tail[..|rest|];
    assert tail[..|ext|] == ext;
    assert |ext| < |rest| ==> url[|pat| + |ext|] == tail[|ext|] == rest[|ext|] == ';';
    NoOccurrenceInPrefix(rest, ext, pat);
    ext
  }

  /**
   `_emoji_to_filename`: the name, a dot, and an extension taken from the
   URL, after its last `.` for an `http...` URL, or the MIME subtype up to
   the first `;` for a `data:image/` URL.  Any other URL gives `None`.
   */
  function EmojiToFilename(e: Emoji, nameOverride: Option<string>): (r: Option<string>)
    ensures r.Some? <==> StartsWith(e.url, "http") || StartsWith(e.url, "data:image/")
    ensures StartsWith(e.url, "http") ==> r == Some(ListedName(e, nameOverride) + "." + HttpExtension(e.url))
    ensures !StartsWith(e.url, "http") && StartsWith(e.url, "data:image/") ==>
      r == Some(ListedName(e, nameOverride) + "." + DataExtension(e.url))
  {
    var shown := ListedName(e, nameOverride);
    if StartsWith(e.url, "http") then Some(shown + "." + HttpExtension(e.url))
    else if StartsWith(e.url, "data:image/") then Some(shown + "." + DataExtension(e.url))
    else None
  }

  /** `{e['name']: e for e in listing}`. */
  function ByName(listing: seq<Emoji>): (d: Dict<string, Emoji>)
    ensures Wf(d)
    ensures forall n :: n in Keys(d) <==> exists i :: 0 <= i < |listing| && listing[i].name == n
  {
    var pairs := seq(|listing|, i requires 0 <= i < |listing| => (listing[i].name, listing[i]));
    assert forall n :: n in Keys(pairs) <==> exists i :: 0 <= i < |listing| && listing[i].name == n by {
      forall n ensures n in Keys(pairs) <==> exists i :: 0 <= i < |listing| && listing[i].name == n {
        if exists i :: 0 <= i < |listing| && listing[i].name == n {
          var i :| 0 <= i < |listing| && listing[i].name == n;
          assert Keys(pairs)[i] == n;
        }
      }
    }
    FromPairs(pairs)
  }

  /**
   `_get_all_emoji`: the cached listing when there is one; otherwise the
   server's listing, which is then cached.  A failed listing caches nothing.
   */
  function AllEmoji(fs: SlackFs, listing: Result<seq<Emoji>>): (r: (SlackFs, Result<Dict<string, Emoji>>))
    ensures r.0.buffers == fs.buffers
    ensures fs.cache.Some? ==> r.0 == fs && r.1 == Ok(fs.cache.value)
    ensures fs.cache.None? && listing.Err? ==> r.0 == fs && r.1 == Err(listing.error)
    ensures fs.cache.None? && listing.Ok? ==> r.1 == Ok(ByName(listing.value)) && r.0.cache == Some(ByName(listing.value))
    ensures r.1.Ok? ==> r.0.cache == Some(r.1.value)
  {
    match fs.cache
    case Some(d) => (fs, Ok(d))
    case None =>
      match listing
      case Err(e) => (fs, Err(e))
      case Ok(list) =>
        var d := ByName(list);
        (fs.(cache := Some(d)), Ok(d))
  }

  /** `_invalidate_metadata`. */
  function Invalidate(fs: SlackFs): SlackFs {
    fs.(cache := None)
  }

  // ----- reading operations -----

  /**
   `getattr`: the root is a writable directory (failing with `ValueError`
   when the team has no emoji, whose creation times it takes the extremes
   of); a file being written is a private regular file of the buffer's size;
   an alias is a link and any other emoji a read-only file sized by its URL;
   an unknown name is `ENOENT`.  The listing is consulted first, even for a
   buffered path.
   */
  function Getattr(fs: SlackFs, path: string, listing: Result<seq<Emoji>>, head: string -> Result<nat>): (r: Reply<Stat>)
    ensures r.fs.buffers == fs.buffers && r.sent == []
    ensures AllEmoji(fs, listing).1.Err? ==> r.out == Err(AllEmoji(fs, listing).1.error)
    ensures AllEmoji(fs, listing).1.Ok? && path != "/" && path in fs.buffers ==>
      r.out == Ok(Stat(S_IFREG + PERM_RW_OWNER, 1, Some(|fs.buffers[path]|)))
    ensures AllEmoji(fs, listing).1.Ok? && path == "/" ==>
      r.out == if |AllEmoji(fs, listing).1.value| == 0 then Err(ValueError) else Ok(DirStat(PERM_R_X + S_IWUSR))
    ensures AllEmoji(fs, listing).1.Ok? && path != "/" && path !in fs.buffers ==>
      var found := Get(AllEmoji(fs, listing).1.value, PathToName(path));
      && (found.None? ==> r.out == Err(Os(ENOENT)))
      && (found.Some? ==> (r.out.Ok? <==> Utils.ContentLength(found.value.url, head(found.value.url)).Ok?))
      && (found.Some? && r.out.Ok? ==>
            r.out.value == Stat((if found.value.isAlias then S_IFLNK else S_IFREG) + PERM_R, 1,
                                Utils.ContentLength(found.value.url, head(found.value.url)).value))
  {
    var (fs1, emojis) := AllEmoji(fs, listing);
    if emojis.Err? then Reply(fs1, [], Err(emojis.error))
    else if path == "/" then
      if |emojis.value| == 0 then Reply(fs1, [], Err(ValueError))
      else Reply(fs1, [], Ok(DirStat(PERM_R_X + S_IWUSR)))
    else if path in fs1.buffers then
      Reply(fs1, [], Ok(Stat(S_IFREG + PERM_RW_OWNER, 1, Some(|fs1.buffers[path]|))))
    else
      match Get(emojis.value, PathToName(path))
      case None => Reply(fs1, [], Err(Os(ENOENT)))
      case Some(e) =>
        var size := Utils.ContentLength(e.url, head(e.url));
        if size.Err? then Reply(fs1, [], Err(size.error))
        else
          var mode := (if e.isAlias then S_IFLNK else S_IFREG) + PERM_R;
          Reply(fs1, [], Ok(Stat(mode, 1, size.value)))
  }

  /** `readdir`: `.` and `..`, then one file name per emoji, in listing order, whatever the path. */
  function Readdir(fs: SlackFs, path: string, listing: Result<seq<Emoji>>): (r: Reply<seq<Option<string>>>)
    ensures r.fs.buffers == fs.buffers && r.sent == []
    ensures r.out.Ok? <==> AllEmoji(fs, listing).1.Ok?
    ensures r.out.Ok? ==> |r.out.value| == 2 + |AllEmoji(fs, listing).1.value|
    ensures r.out.Ok? ==> r.out.value[..2] == [Some("."), Some("..")]
    ensures r.out.Ok? ==> forall i :: 2 <= i < |r.out.value| ==>
      r.out.value[i] == EmojiToFilename(Values(AllEmoji(fs, listing).1.value)[i - 2], None)
  {
    var (fs1, emojis) := AllEmoji(fs, listing);
    if emojis.Err? then Reply(fs1, [], Err(emojis.error))
    else
      var es := Values(emojis.value);
      Reply(fs1, [], Ok([Some("."), Some("..")] + seq(|es|, i requires 0 <= i < |es| => EmojiToFilename(es[i], None))))
  }

  /**
   `readlink`: an unknown name is `ENOENT`, an emoji that is not an alias
   `EINVAL`; an alias points at the file name of the emoji it stands for,
   with the extension of its own URL.
   */
  function Readlink(fs: SlackFs, path: string, listing: Result<seq<Emoji>>): (r: Reply<Option<string>>)
    ensures r.fs.buffers == fs.buffers && r.sent == []
    ensures AllEmoji(fs, listing).1.Ok? ==>
      var found := Get(AllEmoji(fs, listing).1.value, PathToName(path));
      && (found.None? ==> r.out == Err(Os(ENOENT)))
      && (found.Some? && !found.value.isAlias ==> r.out == Err(Os(EINVAL)))
      && (found.Some? && found.value.isAlias ==> r.out == Ok(EmojiToFilename(found.value, Some(found.value.aliasFor))))
    ensures AllEmoji(fs, listing).1.Err? ==> r.out == Err(AllEmoji(fs, listing).1.error)
  {
    var (fs1, emojis) := AllEmoji(fs, listing);
    if emojis.Err? then Reply(fs1, [], Err(emojis.error))
    else
      match Get(emojis.value, PathToName(path))
      case None => Reply(fs1, [], Err(Os(ENOENT)))
      case Some(e) =>
        if !e.isAlias then Reply(fs1, [], Err(Os(EINVAL)))
        else Reply(fs1, [], Ok(EmojiToFilename(e, Some(e.aliasFor))))
  }

  /**
   `read`: a path with a write buffer reads from it, clipped at its end,
   and touches nothing else; otherwise the emoji's bytes are fetched and
   sliced, `ENOENT` for an unknown name.  A URL that is neither `http...`
   nor `data:` yields no bytes, and slicing that raises `TypeError`.
   */
  function Read(fs: SlackFs, path: string, size: nat, offset: nat, listing: Result<seq<Emoji>>,
                get: string -> Result<Bytes>, decode: string -> Result<Bytes>): (r: Reply<Bytes>)
    ensures r.fs.buffers == fs.buffers && r.sent == []
    ensures path in fs.buffers ==> r.fs == fs && r.out == Ok(ReadAt(fs.buffers[path], offset, size))
    ensures (path !in fs.buffers && AllEmoji(fs, listing).1.Ok?
             && PathToName(path) !in Keys(AllEmoji(fs, listing).1.value)) ==> r.out == Err(Os(ENOENT))
    ensures path !in fs.buffers && AllEmoji(fs, listing).1.Err? ==> r.out == Err(AllEmoji(fs, listing).1.error)
    ensures (path !in fs.buffers && AllEmoji(fs, listing).1.Ok?
             && Get(AllEmoji(fs, listing).1.value, PathToName(path)).Some?) ==>
      var e := Get(AllEmoji(fs, listing).1.value, PathToName(path)).value;
      var fetched := Utils.EmojiBytes(e.url, get(e.url), decode);
      && (fetched.Err? ==> r.out == Err(fetched.error))
      && (fetched == Ok(None) ==> r.out == Err(TypeError))
      && (fetched.Ok? && fetched.value.Some? ==> r.out == Ok(ReadAt(fetched.value.value, offset, size)))
    ensures r.out.Ok? ==> |r.out.value| <= size
  {
    if path in fs.buffers then Reply(fs, [], Ok(ReadAt(fs.buffers[path], offset, size)))
    else
      var (fs1, emojis) := AllEmoji(fs, listing);
      if emojis.Err? then Reply(fs1, [], Err(emojis.error))
      else
        match Get(emojis.value, PathToName(path))
        case None => Reply(fs1, [], Err(Os(ENOENT)))
        case Some(e) =>
          match Utils.EmojiBytes(e.url, get(e.url), decode)
          case Err(err) => Reply(fs1, [], Err(err))
          case Ok(None) => Reply(fs1, [], Err(TypeError))
          case Ok(Some(b)) => Reply(fs1, [], Ok(ReadAt(b, offset, size)))
  }

  /**
   `listxattr`: nothing for the root or a file being written; otherwise
   the two attribute names, or `ENOENT` for an unknown name.
   */
  function Listxattr(fs: SlackFs, path: string, listing: Result<seq<Emoji>>): (r: Reply<seq<string>>)
    ensures r.fs.buffers == fs.buffers && r.sent == []
    ensures path == "/" || path in fs.buffers ==> r.fs == fs && r.out == Ok([])
    ensures r.out.Ok? && path != "/" && path !in fs.buffers ==>
      && r.out.value == [URL_XATTR, CREATEDBY_XATTR]
      && AllEmoji(fs, listing).1.Ok?
      && PathToName(path) in Keys(AllEmoji(fs, listing).1.value)
    ensures path != "/" && path !in fs.buffers ==>
      var emojis := AllEmoji(fs, listing).1;
      && (emojis.Err? ==> r.out == Err(emojis.error))
      && (emojis.Ok? && PathToName(path) in Keys(emojis.value) ==> r.out == Ok([URL_XATTR, CREATEDBY_XATTR]))
      && (emojis.Ok? && PathToName(path) !in Keys(emojis.value) ==> r.out == Err(Os(ENOENT)))
  {
    if path == "/" || path in fs.buffers then Reply(fs, [], Ok([]))
    else
      var (fs1, emojis) := AllEmoji(fs, listing);
      if emojis.Err? then Reply(fs1, [], Err(emojis.error))
      else if PathToName(path) !in Keys(emojis.value) then Reply(fs1, [], Err(Os(ENOENT)))
      else Reply(fs1, [], Ok([URL_XATTR, CREATEDBY_XATTR]))
  }

  /**
   `getxattr`: `ENODATA` for the root or a file being written; the
   emoji is looked up before any existence check, so an unknown name raises
   `KeyError` (never `ENOENT`); then the URL, the creator's display name, or
   `ENODATA` for any other attribute.
   */
  function Getxattr(fs: SlackFs, path: string, attr: string, listing: Result<seq<Emoji>>): (r: Reply<string>)
    ensures r.fs.buffers == fs.buffers && r.sent == []
    ensures path == "/" || path in fs.buffers ==> r.out == Err(Os(ENODATA))
    ensures path != "/" && path !in fs.buffers && AllEmoji(fs, listing).1.Ok? ==>
      (PathToName(path) !in Keys(AllEmoji(fs, listing).1.value) <==> r.out == Err(KeyError))
    ensures r.out.Ok? ==> attr == URL_XATTR || attr == CREATEDBY_XATTR
    ensures path != "/" && path !in fs.buffers && AllEmoji(fs, listing).1.Err? ==>
      r.out == Err(AllEmoji(fs, listing).1.error)
    ensures (path != "/" && path !in fs.buffers && AllEmoji(fs, listing).1.Ok?
             && Get(AllEmoji(fs, listing).1.value, PathToName(path)).Some?) ==>
      var e := Get(AllEmoji(fs, listing).1.value, PathToName(path)).value;
      && (attr == URL_XATTR ==> r.out == Ok(e.url))
      && (attr == CREATEDBY_XATTR ==> r.out == Ok(e.userDisplayName))
      && (attr != URL_XATTR && attr != CREATEDBY_XATTR ==> r.out == Err(Os(ENODATA)))
  {
    if path == "/" || path in fs.buffers then Reply(fs, [], Err(Os(ENODATA)))
    else
      var (fs1, emojis) := AllEmoji(fs, listing);
      if emojis.Err? then Reply(fs1, [], Err(emojis.error))
      else
        match Get(emojis.value, PathToName(path))
        case None => Reply(fs1, [], Err(KeyError))
        case Some(e) =>
          if attr == URL_XATTR then Reply(fs1, [], Ok(e.url))
          else if attr == CREATEDBY_XATTR then Reply(fs1, [], Ok(e.userDisplayName))
          else Reply(fs1, [], Err(Os(ENODATA)))
  }

  // ----- changing operations -----

  /** `create`: an empty buffer for the path, replacing any earlier one; answers 0. */
  function Create(fs: SlackFs, path: string): (r: Reply<int>)
    ensures r.out == Ok(0) && r.sent == [] && r.fs.cache == fs.cache
    ensures path in r.fs.buffers && r.fs.buffers[path] == []
    ensures forall p :: p != path ==> (p in r.fs.buffers <==> p in fs.buffers)
    ensures forall p :: p != path && p in fs.buffers ==> r.fs.buffers[p] == fs.buffers[p]
  {
    Reply(fs.(buffers := fs.buffers[path := []]), [], Ok(0))
  }

  /**
   `write`: the data lands at `offset` in the path's buffer (see
   `WriteBuffer.WriteAt`) and its length is the answer; with no buffer the
   lookup raises `KeyError` and nothing changes.
   */
  function Write(fs: SlackFs, path: string, data: Bytes, offset: nat): (r: Reply<nat>)
    ensures r.sent == [] && r.fs.cache == fs.cache
    ensures path !in fs.buffers ==> r.fs == fs && r.out == Err(KeyError)
    ensures path in fs.buffers ==>
      && r.out == Ok(|data|)
      && r.fs.buffers.Keys == fs.buffers.Keys
      && r.fs.buffers[path] == WriteAt(fs.buffers[path], data, offset)
      && (forall p :: p in fs.buffers && p != path ==> r.fs.buffers[p] == fs.buffers[p])
  {
    if path !in fs.buffers then Reply(fs, [], Err(KeyError))
    else Reply(fs.(buffers := fs.buffers[path := WriteAt(fs.buffers[path], data, offset)]), [], Ok(|data|))
  }

  /** `truncate`: the buffer keeps its first `length` bytes at most; `KeyError` with no buffer. */
  function Truncate(fs: SlackFs, path: string, length: nat): (r: Reply<()>)
    ensures r.sent == [] && r.fs.cache == fs.cache
    ensures path !in fs.buffers ==> r.fs == fs && r.out == Err(KeyError)
    ensures path in fs.buffers ==>
      && r.out == Ok(())
      && r.fs.buffers.Keys == fs.buffers.Keys
      && r.fs.buffers[path] == fs.buffers[path][..Min(length, |fs.buffers[path]|)]
      && (forall p :: p in fs.buffers && p != path ==> r.fs.buffers[p] == fs.buffers[p])
  {
    if path !in fs.buffers then Reply(fs, [], Err(KeyError))
    else Reply(fs.(buffers := fs.buffers[path := WriteBuffer.Truncate(fs.buffers[path], length)]), [], Ok(()))
  }

  /**
   `release`: for a path with a buffer, upload the whole buffer under the
   name the path gives (`upload` is how that call ends); then, however it
   ended, drop the buffer and clear the metadata cache.  Without a buffer
   (a file opened only for reading) nothing happens.
   */
  function Release(fs: SlackFs, path: string, upload: Result<()>): (r: Reply<()>)
    ensures path !in fs.buffers ==> r == Reply(fs, [], Ok(()))
    ensures path in fs.buffers ==>
      && r.sent == [EmojiAdd(PathToName(path), fs.buffers[path])]
      && r.out == upload
      && r.fs.buffers == fs.buffers - {path}
      && r.fs.cache.None?
  {
    if path !in fs.buffers then Reply(fs, [], Ok(()))
    else
      var call := EmojiAdd(PathToName(path), fs.buffers[path]);
      Reply(Invalidate(fs.(buffers := fs.buffers - {path})), [call], upload)
  }

  /**
   `unlink`: `ENOENT` for an unknown name; otherwise ask the server to
   remove the emoji (`outcome` is how that call ends) and clear the cache
   whatever the outcome.  Write buffers are left alone.
   */
  function Unlink(fs: SlackFs, path: string, listing: Result<seq<Emoji>>, outcome: Result<()>): (r: Reply<()>)
    ensures r.fs.buffers == fs.buffers
    ensures AllEmoji(fs, listing).1.Err? ==> r.sent == [] && r.out == Err(AllEmoji(fs, listing).1.error)
    ensures AllEmoji(fs, listing).1.Ok? ==>
      if PathToName(path) in Keys(AllEmoji(fs, listing).1.value) then
        r.sent == [EmojiRemove(PathToName(path))] && r.out == outcome && r.fs.cache.None?
      else
        r.sent == [] && r.out == Err(Os(ENOENT)) && r.fs.cache == Some(AllEmoji(fs, listing).1.value)
  {
    var (fs1, emojis) := AllEmoji(fs, listing);
    if emojis.Err? then Reply(fs1, [], Err(emojis.error))
    else if PathToName(path) !in Keys(emojis.value) then Reply(fs1, [], Err(Os(ENOENT)))
    else Reply(Invalidate(fs1), [EmojiRemove(PathToName(path))], outcome)
  }

  /**
   `symlink(target, source)`: the link's name becomes an alias of the
   emoji the source names, which must exist (`ENOENT` otherwise); the cache
   is cleared whatever the outcome of that call.
   */
  function Symlink(fs: SlackFs, target: string, source: string, listing: Result<seq<Emoji>>, outcome: Result<()>): (r: Reply<()>)
    ensures r.fs.buffers == fs.buffers
    ensures AllEmoji(fs, listing).1.Err? ==> r.sent == [] && r.out == Err(AllEmoji(fs, listing).1.error)
    ensures AllEmoji(fs, listing).1.Ok? ==>
      if PathToName(source) in Keys(AllEmoji(fs, listing).1.value) then
        r.sent == [EmojiAlias(PathToName(target), PathToName(source))] && r.out == outcome && r.fs.cache.None?
      else
        r.sent == [] && r.out == Err(Os(ENOENT))
  {
    var (fs1, emojis) := AllEmoji(fs, listing);
    if emojis.Err? then Reply(fs1, [], Err(emojis.error))
    else if PathToName(source) !in Keys(emojis.value) then Reply(fs1, [], Err(Os(ENOENT)))
    else Reply(Invalidate(fs1), [EmojiAlias(PathToName(target), PathToName(source))], outcome)
  }

  // ----- properties across operations -----

  /**
   A file listed by `readdir` (or named by `readlink`) maps back to the
   emoji name it was built from, when that name has no `.` in it.
   */
  lemma FilenameNamesEmoji(e: Emoji, nameOverride: Option<string>)
    requires StartsWith(e.url, "http") || StartsWith(e.url, "data:image/")
    requires '.' !in ListedName(e, nameOverride)
    ensures PathToName("/" + EmojiToFilename(e, nameOverride).value) == ListedName(e, nameOverride)
  {
    var name := ListedName(e, nameOverride);
    var ext := if StartsWith(e.url, "http") then HttpExtension(e.url) else DataExtension(e.url);
    var file := EmojiToFilename(e, nameOverride).value;
    assert file == name + "." + ext;
    assert "/" + file == "/" + name + "." + ext;
    NameOfFile(name, ext);
  }

  /** The name of the file `/<name>.<ext>` is `name`, when `name` has no `.`. */
  lemma NameOfFile(name: string, ext: string)
    requires '.' !in name
    ensures PathToName("/" + name + "." + ext) == name
  {
    var rest := name + "." + ext;
    assert "/" + name + "." + ext == "" + ['/'] + rest;
    SplitNAfter("", rest, '/', 1);
    BeforeFirst(rest, name, ext, '.');
  }

  /** A listed emoji with an `http` URL reads as the requested slice of what the web server returns for it. */
  lemma ReadHttpEmoji(fs: SlackFs, path: string, size: nat, offset: nat, listing: Result<seq<Emoji>>,
                      get: string -> Result<Bytes>, decode: string -> Result<Bytes>, e: Emoji)
    requires path !in fs.buffers
    requires AllEmoji(fs, listing).1.Ok? && Get(AllEmoji(fs, listing).1.value, PathToName(path)) == Some(e)
    requires StartsWith(e.url, "http") && get(e.url).Ok?
    ensures Read(fs, path, size, offset, listing, get, decode).out == Ok(ReadAt(get(e.url).value, offset, size))
  {
  }

  /** Data written to a freshly created file reads back unchanged, whatever the listing says. */
  lemma WrittenBytesReadBack(fs: SlackFs, path: string, data: Bytes, listing: Result<seq<Emoji>>,
                             get: string -> Result<Bytes>, decode: string -> Result<Bytes>)
    ensures Read(Write(Create(fs, path).fs, path, data, 0).fs, path, |data|, 0, listing, get, decode).out == Ok(data)
  {
    FreshWrite(data);
    ReadAfterWrite([], data, 0);
  }

  /**
   Creating, writing at offset 0 and releasing a file uploads exactly the
   bytes written, under the name the path gives, and leaves no buffer and
   no cached listing behind, whether or not the upload succeeds.
   */
  lemma CreateWriteReleaseUploads(fs: SlackFs, path: string, data: Bytes, upload: Result<()>)
    ensures var fs2 := Write(Create(fs, path).fs, path, data, 0).fs;
      && Release(fs2, path, upload).sent == [EmojiAdd(PathToName(path), data)]
      && path !in Release(fs2, path, upload).fs.buffers
      && Release(fs2, path, upload).fs.cache.None?
      && Release(fs2, path, upload).out == upload
  {
    FreshWrite(data);
  }
}
