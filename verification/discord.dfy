/**
 The Discord backend: one directory per guild the user belongs to, one
 image file per custom emoji of that guild.  The state is the write buffer
 of every file being created, the cached guild list and the cached emoji
 listing of each guild; the server enters as parameters: its current
 answers for those listings, the outcome of each changing call, and the
 web server answering for emoji URLs.
 */
module Discord {
  import opened Types
  import opened PyStr
  import opened PyDict
  import opened WriteBuffer
  import Base64
  import Utils

  /** The fields of a guild the filesystem reads; `permissions` is the user's permission bit set. */
  datatype Guild = Guild(id: string, name: string, permissions: int)

  datatype User = User(username: string, discriminator: string)

  /** `user` is present only when the server reveals who uploaded the emoji. */
  datatype Emoji = Emoji(id: string, name: string, animated: bool, user: Option<User>)

  /**
   The filesystem's state: `_write_buffers`, the guild list cache (id to
   guild, or nothing) and the per-guild emoji caches (guild id to name to
   emoji).
   */
  datatype DiscordFs = DiscordFs(buffers: map<string, Bytes>, guilds: Option<Dict<string, Guild>>,
                                 emojis: map<string, Dict<string, Emoji>>)

  /** What the server would answer now for the guild list and for each guild's emoji list. */
  datatype Server = Server(guilds: Result<seq<Guild>>, emojis: string -> Result<seq<Emoji>>)

  /** The calls that change a guild's emoji: the URL fragment and, for a creation, the JSON payload. */
  datatype Call =
    | Post(urlfrag: string, name: Option<string>, image: string)
    | Delete(urlfrag: string)

  /** One operation's effect: the state after it, the changing calls it made, and its outcome. */
  datatype Reply<T> = Reply(fs: DiscordFs, sent: seq<Call>, out: Result<T>)

  /** The `MANAGE_EMOJIS` permission bit, bit 30. */
  const MANAGE_EMOJIS: int := 0x4000_0000

  // ----- caches -----

  /** `{g['id']: g for g in guilds}`. */
  function ById(list: seq<Guild>): (d: Dict<string, Guild>)
    ensures Wf(d)
    ensures forall k :: k in Keys(d) <==> exists i :: 0 <= i < |list| && list[i].id == k
  {
    var pairs := seq(|list|, i requires 0 <= i < |list| => (list[i].id, list[i]));
    forall k | exists i :: 0 <= i < |list| && list[i].id == k
      ensures k in Keys(pairs)
    {
      var i :| 0 <= i < |list| && list[i].id == k;
      assert Keys(pairs)[i] == k;
    }
    FromPairs(pairs)
  }

  /** `{e['name']: e for e in emojis}`. */
  function ByName(list: seq<Emoji>): (d: Dict<string, Emoji>)
    ensures Wf(d)
    ensures forall k :: k in Keys(d) <==> exists i :: 0 <= i < |list| && list[i].name == k
  {
    var pairs := seq(|list|, i requires 0 <= i < |list| => (list[i].name, list[i]));
    forall k | exists i :: 0 <= i < |list| && list[i].name == k
      ensures k in Keys(pairs)
    {
      var i :| 0 <= i < |list| && list[i].name == k;
      assert Keys(pairs)[i] == k;
    }
    FromPairs(pairs)
  }

  /** `_get_guilds`: the cached guild list, or the server's (then cached). */
  function Guilds(fs: DiscordFs, server: Server): (r: (DiscordFs, Result<Dict<string, Guild>>))
    ensures r.0.buffers == fs.buffers && r.0.emojis == fs.emojis
    ensures fs.guilds.Some? ==> r.0 == fs && r.1 == Ok(fs.guilds.value)
    ensures fs.guilds.None? ==> (r.1.Ok? <==> server.guilds.Ok?)
    ensures fs.guilds.None? && r.1.Ok? ==> r.1.value == ById(server.guilds.value)
    ensures r.1.Ok? ==> r.0.guilds == Some(r.1.value)
    ensures r.1.Err? ==> r.0 == fs && r.1 == Err(server.guilds.error)
  {
    match fs.guilds
    case Some(d) => (fs, Ok(d))
    case None =>
      match server.guilds
      case Err(e) => (fs, Err(e))
      case Ok(list) =>
        var d := ById(list);
        (fs.(guilds := Some(d)), Ok(d))
  }

  /** `_get_emojis(id)`: the guild's cached emoji listing, or the server's (then cached). */
  function Emojis(fs: DiscordFs, server: Server, id: string): (r: (DiscordFs, Result<Dict<string, Emoji>>))
    ensures r.0.buffers == fs.buffers && r.0.guilds == fs.guilds
    ensures id in fs.emojis ==> r.0 == fs && r.1 == Ok(fs.emojis[id])
    ensures id !in fs.emojis ==> (r.1.Ok? <==> server.emojis(id).Ok?)
    ensures id !in fs.emojis && r.1.Ok? ==> r.1.value == ByName(server.emojis(id).value)
    ensures id !in fs.emojis && r.1.Err? ==> r.0 == fs && r.1 == Err(server.emojis(id).error)
    ensures r.1.Ok? ==> id in r.0.emojis && r.0.emojis[id] == r.1.value
    ensures forall other :: other != id ==> (other in r.0.emojis <==> other in fs.emojis)
    ensures forall other :: other != id && other in fs.emojis ==> r.0.emojis[other] == fs.emojis[other]
  {
    if id in fs.emojis then (fs, Ok(fs.emojis[id]))
    else
      match server.emojis(id)
      case Err(e) => (fs, Err(e))
      case Ok(list) =>
        var d := ByName(list);
        (fs.(emojis := fs.emojis[id := d]), Ok(d))
  }

  /** `_invalidate_guild(id)`: forget that guild's emoji listing and nothing else. */
  function InvalidateGuild(fs: DiscordFs, id: string): (r: DiscordFs)
    ensures id !in r.emojis
    ensures r.buffers == fs.buffers && r.guilds == fs.guilds
    ensures forall other :: other != id ==> (other in r.emojis <==> other in fs.emojis)
    ensures forall other :: other != id && other in fs.emojis ==> r.emojis[other] == fs.emojis[other]
  {
    fs.(emojis := fs.emojis - {id})
  }

  // ----- names, paths and URLs -----

  /** What `_guild_to_path` can be handed: a guild record, a string, or anything else. */
  datatype Renderable = GuildValue(g: Guild) | Text(s: string) | OtherValue

  /** `out` is `s` with every `/` replaced by `_`. */
  predicate Rendered(s: string, out: string) {
    |out| == |s| && forall i :: 0 <= i < |s| ==> out[i] == if s[i] == '/' then '_' else s[i]
  }

  /**
   `_guild_to_path`: a string with every `/` turned into `_`; a guild
   renders as its name; anything else is a `ValueError`.
   */
  function GuildToPath(x: Renderable): (r: Result<string>)
    ensures r.Err? <==> x.OtherValue?
    ensures r.Err? ==> r.error == ValueError
    ensures r.Ok? ==> '/' !in r.value
    ensures x.Text? ==> Rendered(x.s, r.value)
    ensures x.GuildValue? ==> Rendered(x.g.name, r.value)
    decreases if x.GuildValue? then 1 else 0
  {
    match x
    case GuildValue(g) => GuildToPath(Text(g.name))
    case Text(s) => Ok(Replace(s, '/', '_'))
    case OtherValue => Err(ValueError)
  }

  /** A guild's directory name. */
  function GuildDir(g: Guild): (name: string)
    ensures '/' !in name
  {
    GuildToPath(GuildValue(g)).value
  }

  /** Rendering a rendered name again changes nothing. */
  lemma GuildToPathIdempotent(x: Renderable)
    requires GuildToPath(x).Ok?
    ensures GuildToPath(Text(GuildToPath(x).value)) == GuildToPath(x)
  {
    var once := GuildToPath(x).value;
    assert Replace(once, '/', '_') == once;
  }

  /**
   `path.split('/', maxsplit=2)[1]`: the guild segment, between the first
   and the second `/`; `IndexError` when the path has no `/`.
   */
  function GuildSegment(path: string): (r: Result<string>)
    ensures r.Err? <==> '/' !in path
    ensures r.Err? ==> r.error == IndexError
    ensures r.Ok? ==> r.value == Before(path[|Before(path, '/')| + 1..], '/')
  {
    var parts := SplitN(path, '/', 2);
    if |parts| < 2 then
      assert parts == [path];
      Err(IndexError)
    else
      var i := Find(path, '/').value;
      assert parts == [path[..i]] + SplitN(path[i + 1..], '/', 1);
      SplitOnceAtFirst(path[i + 1..], '/');
      Ok(parts[1])
  }

  /** No guild before position `i` has the directory name `segment`. */
  predicate FirstAt(guilds: seq<Guild>, segment: string, i: int) {
    forall j :: 0 <= j < i && j < |guilds| ==> GuildDir(guilds[j]) != segment
  }

  /** The first guild whose directory name is `segment`. */
  function FirstNamed(guilds: seq<Guild>, segment: string): (r: Option<Guild>)
    ensures r.None? <==> forall i :: 0 <= i < |guilds| ==> GuildDir(guilds[i]) != segment
    ensures r.Some? ==> GuildDir(r.value) == segment
    ensures r.Some? ==> exists i :: 0 <= i < |guilds| && guilds[i] == r.value && FirstAt(guilds, segment, i)
  {
    if |guilds| == 0 then None
    else if GuildDir(guilds[0]) == segment then
      assert FirstAt(guilds, segment, 0);
      Some(guilds[0])
    else
      var rest := FirstNamed(guilds[1..], segment);
      if rest.Some? then
        assert exists i :: 0 <= i < |guilds| && guilds[i] == rest.value && FirstAt(guilds, segment, i) by {
          var k :| 0 <= k < |guilds[1..]| && guilds[1..][k] == rest.value && FirstAt(guilds[1..], segment, k);
          assert guilds[k + 1] == rest.value;
          assert FirstAt(guilds, segment, k + 1);
        }
        rest
      else rest
  }

  /**
   `_path_to_guild`: the guild stored under the path's guild segment as an
   id, else the first guild (in list order) whose directory name is the
   segment, else `None`.
   */
  function PathToGuild(fs: DiscordFs, path: string, server: Server): (r: Reply<Option<Guild>>)
    ensures r.fs.buffers == fs.buffers && r.fs.emojis == fs.emojis && r.sent == []
    ensures '/' !in path ==> r.fs == fs && r.out == Err(IndexError)
    ensures '/' in path ==> (r.out.Ok? <==> Guilds(fs, server).1.Ok?)
    ensures '/' in path && Guilds(fs, server).1.Err? ==> r.out == Err(Guilds(fs, server).1.error)
    ensures r.out.Ok? ==>
      var d, segment := Guilds(fs, server).1.value, GuildSegment(path).value;
      && (segment in Keys(d) ==> r.out.value == Get(d, segment))
      && (segment !in Keys(d) ==> r.out.value == FirstNamed(Values(d), segment))
  {
    match GuildSegment(path)
    case Err(e) => Reply(fs, [], Err(e))
    case Ok(segment) =>
      var (fs1, guilds) := Guilds(fs, server);
      if guilds.Err? then Reply(fs1, [], Err(guilds.error))
      else if segment in Keys(guilds.value) then Reply(fs1, [], Ok(Get(guilds.value, segment)))
      else Reply(fs1, [], Ok(FirstNamed(Values(guilds.value), segment)))
  }

  /**
   `_path_to_emojiname`: the third `/`-separated part (the rest of the path
   after the second `/`) up to its first `.`; `None` when there is no third
   part or it is empty.  The name can still be empty (for `.png`).
   */
  function PathToEmojiName(path: string): (r: Option<string>)
    ensures r.Some? ==> '.' !in r.value
    ensures r.Some? ==> |SplitN(path, '/', 2)| == 3 && r.value == Before(SplitN(path, '/', 2)[2], '.')
    ensures r.None? <==> |SplitN(path, '/', 2)| < 3 || SplitN(path, '/', 2)[2] == ""
  {
    var parts := SplitN(path, '/', 2);
    if |parts| < 3 || parts[2] == "" then None
    else Some(Before(parts[2], '.'))
  }

  /** `MANAGE_EMOJIS` is set in the user's permissions for the guild (`permissions & 0x40000000`). */
  predicate GuildIsWritable(g: Guild) {
    (g.permissions / MANAGE_EMOJIS) % 2 == 1
  }

  /**
   Whether a guild is writable depends on bit 30 alone: for permission sets
   below bit 31 it is writable exactly when the set is at least `MANAGE_EMOJIS`,
   and setting or clearing any other bit changes nothing.
   */
  lemma WritableIsBit30(g: Guild, low: int, high: int)
    requires 0 <= low < MANAGE_EMOJIS
    ensures GuildIsWritable(g.(permissions := low)) == false
    ensures GuildIsWritable(g.(permissions := MANAGE_EMOJIS + low)) == true
    ensures GuildIsWritable(g.(permissions := g.permissions + 2 * MANAGE_EMOJIS * high)) == GuildIsWritable(g)
  {
    var p := g.permissions;
    assert (p + 2 * MANAGE_EMOJIS * high) / MANAGE_EMOJIS == p / MANAGE_EMOJIS + 2 * high;
  }

  /** The extensions a new emoji file may have, compared in lower case. */
  const IMAGE_EXTENSIONS: seq<string> := ["jpg", "jpeg", "gif", "png"]

  /**
   `_path_to_extension`: the text after the path's last `.`, kept as
   written, provided its lower-case form is an image extension; otherwise a
   `ValueError` (also when the path has no `.`).
   */
  function PathToExtension(path: string): (r: Result<string>)
    ensures r.Err? ==> r.error == ValueError
    ensures '.' !in path ==> r.Err?
    ensures r.Ok? ==> EndsWith(path, "." + r.value) && '.' !in r.value && Lower(r.value) in IMAGE_EXTENSIONS
    ensures '.' in path && Lower(RSplitOnce(path, '.')[1]) in IMAGE_EXTENSIONS ==> r == Ok(RSplitOnce(path, '.')[1])
  {
    var pieces := RSplitOnce(path, '.');
    if |pieces| < 2 then Err(ValueError)
    else
      var ext := pieces[1];
      assert path[|path| - |"." + ext|..] == "." + ext;
      if Lower(ext) !in IMAGE_EXTENSIONS then Err(ValueError) else Ok(ext)
  }

  /** The image extension of an emoji: `gif` if animated, `png` otherwise. */
  function EmojiExtension(e: Emoji): string {
    if e.animated then "gif" else "png"
  }

  /** `_emoji_url`: where the CDN serves the emoji's image. */
  function EmojiUrl(e: Emoji): (url: string)
    ensures StartsWith(url, "https://cdn.discordapp.com/emojis/" + e.id + ".")
    ensures EndsWith(url, "." + EmojiExtension(e))
    ensures StartsWith(url, "http")
  {
    var url := "https://cdn.discordapp.com/emojis/" + e.id + "." + EmojiExtension(e);
    var cdn := "https://cdn.discordapp.com/emojis/";
    assert url[..|cdn|] == cdn;
    assert url[..4] == cdn[..4] == "http";
    assert url[|url| - |"." + EmojiExtension(e)|..] == "." + EmojiExtension(e);
    url
  }

  /** `_emoji_filename`: the emoji's name and image extension. */
  function EmojiFilename(e: Emoji): (name: string)
    ensures StartsWith(name, e.name + ".")
    ensures EndsWith(name, "." + EmojiExtension(e))
  {
    var name := e.name + "." + EmojiExtension(e);
    assert name[|name| - |"." + EmojiExtension(e)|..] == "." + EmojiExtension(e);
    name
  }

  /**
   A listed emoji file, under a guild directory, maps back to the emoji's
   name, when that has no `.` and is not empty.
   */
  lemma EmojiFileNamesEmoji(segment: string, e: Emoji)
    requires '/' !in segment && '.' !in e.name && e.name != ""
    ensures PathToEmojiName("/" + segment + "/" + EmojiFilename(e)) == Some(e.name)
  {
    var file := EmojiFilename(e);
    var path := "/" + segment + "/" + file;
    assert path == "" + ['/'] + (segment + ['/'] + file);
    SplitNAfter("", segment + ['/'] + file, '/', 2);
    SplitNAfter(segment, file, '/', 1);
    assert SplitN(path, '/', 2) == ["", segment, file];
    assert file == e.name + ['.'] + EmojiExtension(e);
    BeforeFirst(file, e.name, EmojiExtension(e), '.');
  }

  /** A listed emoji file has an extension a new file may be created with. */
  lemma EmojiFileExtensionAccepted(segment: string, e: Emoji)
    ensures PathToExtension("/" + segment + "/" + EmojiFilename(e)) == Ok(EmojiExtension(e))
  {
    var ext := EmojiExtension(e);
    var path := "/" + segment + "/" + EmojiFilename(e);
    assert path == ("/" + segment + "/" + e.name) + ['.'] + ext;
    assert '.' !in ext;
    RSplitAfterLast("/" + segment + "/" + e.name, ext, '.');
    assert Lower(ext) == ext;
  }

  // ----- resolving a path -----

  /**
   `_path_to_guildmoji`: the guild a path names and, when the path also
   names a (non-empty) emoji, that emoji of the guild, `ENOENT` if the
   guild has no such emoji.  An unknown guild gives `(None, None)`; a
   guild path, or an empty emoji name, gives `(guild, None)`.
   */
  function PathToGuildmoji(fs: DiscordFs, path: string, server: Server): (r: Reply<(Option<Guild>, Option<Emoji>)>)
    ensures r.fs.buffers == fs.buffers && r.sent == []
    ensures PathToGuild(fs, path, server).out.Err? ==> r.out == Err(PathToGuild(fs, path, server).out.error)
    ensures PathToGuild(fs, path, server).out == Ok(None) ==> r.out == Ok((None, None))
    ensures (PathToGuild(fs, path, server).out.Ok? && PathToGuild(fs, path, server).out.value.Some?
             && (PathToEmojiName(path).None? || PathToEmojiName(path).value == "")) ==>
      r.out == Ok((PathToGuild(fs, path, server).out.value, None))
    ensures r.out.Ok? && r.out.value.0.None? ==> r.out.value.1.None?
    ensures r.out.Ok? && r.out.value.0.Some? && r.out.value.1.Some? ==>
      var g := r.out.value.0.value;
      var emojis := Emojis(PathToGuild(fs, path, server).fs, server, g.id).1;
      && PathToGuild(fs, path, server).out == Ok(Some(g))
      && PathToEmojiName(path).Some?
      && emojis.Ok?
      && r.out.value.1 == Get(emojis.value, PathToEmojiName(path).value)
    ensures (PathToGuild(fs, path, server).out.Ok? && PathToGuild(fs, path, server).out.value.Some?
             && PathToEmojiName(path).Some? && PathToEmojiName(path).value != "") ==>
      var g := PathToGuild(fs, path, server).out.value.value;
      var emojis := Emojis(PathToGuild(fs, path, server).fs, server, g.id).1;
      && (emojis.Err? ==> r.out == Err(emojis.error))
      && (emojis.Ok? && PathToEmojiName(path).value in Keys(emojis.value) ==>
            r.out == Ok((Some(g), Get(emojis.value, PathToEmojiName(path).value))))
      && (emojis.Ok? && PathToEmojiName(path).value !in Keys(emojis.value) ==> r.out == Err(Os(ENOENT)))
  {
    var found := PathToGuild(fs, path, server);
    match found.out
    case Err(e) => Reply(found.fs, [], Err(e))
    case Ok(None) => Reply(found.fs, [], Ok((None, None)))
    case Ok(Some(g)) =>
      var eh := PathToEmojiName(path);
      if eh.None? || eh.value == "" then Reply(found.fs, [], Ok((Some(g), None)))
      else
        var (fs2, emojis) := Emojis(found.fs, server, g.id);
        if emojis.Err? then Reply(fs2, [], Err(emojis.error))
        else
          match Get(emojis.value, eh.value)
          case None => Reply(fs2, [], Err(Os(ENOENT)))
          case Some(e) => Reply(fs2, [], Ok((Some(g), Some(e))))
  }

  /** A named emoji the guild does not have is `ENOENT`. */
  lemma UnknownEmojiIsEnoent(fs: DiscordFs, path: string, server: Server, g: Guild)
    requires PathToGuild(fs, path, server).out == Ok(Some(g))
    requires PathToEmojiName(path).Some? && PathToEmojiName(path).value != ""
    requires Emojis(PathToGuild(fs, path, server).fs, server, g.id).1.Ok?
    requires PathToEmojiName(path).value !in Keys(Emojis(PathToGuild(fs, path, server).fs, server, g.id).1.value)
    ensures PathToGuildmoji(fs, path, server).out == Err(Os(ENOENT))
  {
  }

  /**
   The file `readdir` lists for an emoji of a guild resolves back to that
   guild and that emoji, when the emoji's name is non-empty and has no `.`.
   */
  lemma ListedEmojiResolves(fs: DiscordFs, segment: string, server: Server, g: Guild, e: Emoji)
    requires '/' !in segment && '.' !in e.name && e.name != ""
    requires PathToGuild(fs, "/" + segment + "/" + EmojiFilename(e), server).out == Ok(Some(g))
    requires Emojis(PathToGuild(fs, "/" + segment + "/" + EmojiFilename(e), server).fs, server, g.id).1.Ok?
    requires Get(Emojis(PathToGuild(fs, "/" + segment + "/" + EmojiFilename(e), server).fs, server, g.id).1.value,
                 e.name) == Some(e)
    ensures PathToGuildmoji(fs, "/" + segment + "/" + EmojiFilename(e), server).out == Ok((Some(g), Some(e)))
  {
    EmojiFileNamesEmoji(segment, e);
  }

  // ----- filesystem operations -----

  /** The directory mode of a guild: read and search for all, write for the owner when writable. */
  function GuildDirStat(g: Guild): (st: Stat)
    ensures st.mode == S_IFDIR + PERM_R_X + (if GuildIsWritable(g) then S_IWUSR else 0) && st.nlink == 2
  {
    DirStat(PERM_R_X + (if GuildIsWritable(g) then S_IWUSR else 0))
  }

  /**
   `getattr`: the root is a writable directory and a file being written a
   private regular file of its buffer's size, both without asking the
   server; otherwise the path is resolved: an unknown guild is `ENOENT`, a
   guild a directory (writable exactly when the guild is), an emoji a
   read-only file sized by its CDN URL.
   */
  function Getattr(fs: DiscordFs, path: string, server: Server, head: string -> Result<nat>): (r: Reply<Stat>)
    ensures r.fs.buffers == fs.buffers && r.sent == []
    ensures path == "/" ==> r == Reply(fs, [], Ok(DirStat(PERM_R_X + S_IWUSR)))
    ensures path != "/" && path in fs.buffers ==>
      r == Reply(fs, [], Ok(Stat(S_IFREG + PERM_RW_OWNER, 1, Some(|fs.buffers[path]|))))
    ensures path != "/" && path !in fs.buffers ==>
      var gm := PathToGuildmoji(fs, path, server).out;
      && (gm.Err? ==> r.out == Err(gm.error))
      && (gm.Ok? && gm.value.0.None? ==> r.out == Err(Os(ENOENT)))
      && (gm.Ok? && gm.value.0.Some? && gm.value.1.None? ==> r.out == Ok(GuildDirStat(gm.value.0.value)))
      && (gm.Ok? && gm.value.0.Some? && gm.value.1.Some? ==>
            var size := Utils.ContentLength(EmojiUrl(gm.value.1.value), head(EmojiUrl(gm.value.1.value)));
            r.out == if size.Ok? then Ok(Stat(S_IFREG + PERM_R, 1, size.value)) else Err(size.error))
  {
    if path == "/" then Reply(fs, [], Ok(DirStat(PERM_R_X + S_IWUSR)))
    else if path in fs.buffers then Reply(fs, [], Ok(Stat(S_IFREG + PERM_RW_OWNER, 1, Some(|fs.buffers[path]|))))
    else
      var gm := PathToGuildmoji(fs, path, server);
      match gm.out
      case Err(e) => Reply(gm.fs, [], Err(e))
      case Ok((None, _)) => Reply(gm.fs, [], Err(Os(ENOENT)))
      case Ok((Some(g), None)) => Reply(gm.fs, [], Ok(GuildDirStat(g)))
      case Ok((Some(g), Some(e))) =>
        var url := EmojiUrl(e);
        match Utils.ContentLength(url, head(url))
        case Err(err) => Reply(gm.fs, [], Err(err))
        case Ok(size) => Reply(gm.fs, [], Ok(Stat(S_IFREG + PERM_R, 1, size)))
  }

  /** The directory names of the guilds, in the guild list's order. */
  function GuildDirs(guilds: Dict<string, Guild>): (names: seq<string>)
    ensures |names| == |guilds|
    ensures forall i :: 0 <= i < |guilds| ==> names[i] == GuildDir(guilds[i].1)
  {
    seq(|guilds|, i requires 0 <= i < |guilds| => GuildDir(guilds[i].1))
  }

  /** The file names of a guild's emoji, in listing order. */
  function EmojiFilenames(emojis: Dict<string, Emoji>): (names: seq<string>)
    ensures |names| == |emojis|
    ensures forall i :: 0 <= i < |emojis| ==> names[i] == EmojiFilename(emojis[i].1)
  {
    seq(|emojis|, i requires 0 <= i < |emojis| => EmojiFilename(emojis[i].1))
  }

  /** The entries `readdir` lists before any emoji: `.`, `..` and, at the root, the guilds. */
  function TopEntries(fs: DiscordFs, path: string, server: Server): (r: (DiscordFs, Result<seq<string>>))
    ensures r.0.buffers == fs.buffers
    ensures path != "/" ==> r == (fs, Ok([".", ".."]))
    ensures path == "/" ==> r.0 == Guilds(fs, server).0 && (r.1.Ok? <==> Guilds(fs, server).1.Ok?)
    ensures path == "/" && r.1.Ok? ==> r.1.value == [".", ".."] + GuildDirs(Guilds(fs, server).1.value)
    ensures r.1.Err? ==> r.1 == Err(Guilds(fs, server).1.error)
  {
    if path != "/" then (fs, Ok([".", ".."]))
    else
      var (fs0, guilds) := Guilds(fs, server);
      if guilds.Err? then (fs0, Err(guilds.error)) else (fs0, Ok([".", ".."] + GuildDirs(guilds.value)))
  }

  /**
   Listing a guild's emoji files from `path` succeeds: the path resolves,
   and when it names a guild without an emoji, that guild's listing is
   fetched.
   */
  predicate EntriesSucceed(fs: DiscordFs, path: string, server: Server) {
    var gm := PathToGuildmoji(fs, path, server);
    && gm.out.Ok?
    && (gm.out.value.0.Some? && gm.out.value.1.None? ==> Emojis(gm.fs, server, gm.out.value.0.value.id).1.Ok?)
  }

  /**
   `readdir`: `.` and `..`; at the root, one directory per guild; then, if
   the path resolves to a guild without an emoji (the root does when a
   guild's name renders empty), one file per emoji of that guild.
   */
  function Readdir(fs: DiscordFs, path: string, server: Server): (r: Reply<seq<string>>)
    ensures r.fs.buffers == fs.buffers && r.sent == []
    ensures path != "/" ==> (r.out.Ok? <==> EntriesSucceed(fs, path, server))
    ensures path == "/" ==> (r.out.Ok? <==> Guilds(fs, server).1.Ok? && EntriesSucceed(Guilds(fs, server).0, path, server))
    ensures r.out.Ok? ==> |r.out.value| >= 2 && r.out.value[..2] == [".", ".."]
    ensures r.out.Ok? && path == "/" ==>
      var guilds := Guilds(fs, server).1;
      && guilds.Ok?
      && |r.out.value| >= 2 + |guilds.value|
      && r.out.value[..2 + |guilds.value|] == [".", ".."] + GuildDirs(guilds.value)
    ensures r.out.Ok? && path == "/" ==>
      var top := [".", ".."] + GuildDirs(Guilds(fs, server).1.value);
      var gm := PathToGuildmoji(Guilds(fs, server).0, path, server);
      && gm.out.Ok?
      && (gm.out.value.0.None? || gm.out.value.1.Some? ==> r.out.value == top)
      && (gm.out.value.0.Some? && gm.out.value.1.None? ==>
            r.out.value == top + EmojiFilenames(Emojis(gm.fs, server, gm.out.value.0.value.id).1.value))
    ensures r.out.Ok? && path != "/" ==>
      var gm := PathToGuildmoji(fs, path, server);
      && gm.out.Ok?
      && (gm.out.value.0.None? || gm.out.value.1.Some? ==> r.out.value == [".", ".."])
      && (gm.out.value.0.Some? && gm.out.value.1.None? ==>
            var emojis := Emojis(gm.fs, server, gm.out.value.0.value.id).1;
            emojis.Ok? && r.out.value == [".", ".."] + EmojiFilenames(emojis.value))
  {
    var (fs1, top) := TopEntries(fs, path, server);
    if top.Err? then Reply(fs1, [], Err(top.error))
    else if path != "/" then
      assert fs1 == fs && top.value == [".", ".."];
      EmojiEntries(fs, path, server, [".", ".."])
    else
      assert fs1 == Guilds(fs, server).0;
      var listed := EmojiEntries(fs1, path, server, top.value);
      assert listed.out.Ok? ==> listed.out.value[..2] == top.value[..2] == [".", ".."];
      listed
  }

  /** `top` followed, when `path` resolves to a guild without an emoji, by that guild's emoji files. */
  function EmojiEntries(fs: DiscordFs, path: string, server: Server, top: seq<string>): (r: Reply<seq<string>>)
    ensures r.fs.buffers == fs.buffers && r.sent == []
    ensures r.out.Ok? <==> EntriesSucceed(fs, path, server)
    ensures r.out.Ok? ==> |r.out.value| >= |top| && r.out.value[..|top|] == top
    ensures r.out.Ok? ==>
      var gm := PathToGuildmoji(fs, path, server);
      && gm.out.Ok?
      && (gm.out.value.0.None? || gm.out.value.1.Some? ==> r.out.value == top)
      && (gm.out.value.0.Some? && gm.out.value.1.None? ==>
            var emojis := Emojis(gm.fs, server, gm.out.value.0.value.id).1;
            emojis.Ok? && r.out.value == top + EmojiFilenames(emojis.value))
  {
    var gm := PathToGuildmoji(fs, path, server);
    match gm.out
    case Err(e) => Reply(gm.fs, [], Err(e))
    case Ok((Some(g), None)) =>
      var (fs3, emojis) := Emojis(gm.fs, server, g.id);
      if emojis.Err? then Reply(fs3, [], Err(emojis.error))
      else Reply(fs3, [], Ok(top + EmojiFilenames(emojis.value)))
    case Ok(_) => Reply(gm.fs, [], Ok(top))
  }

  /**
   `listxattr`: nothing for the root or a file being written; otherwise,
   once the path resolves, both attribute names, whether it names an
   emoji, a guild, or no guild at all (a resolution never yields an emoji
   without a guild, so the `ENOENT` branch cannot fire).
   */
  function Listxattr(fs: DiscordFs, path: string, server: Server): (r: Reply<seq<string>>)
    ensures r.fs.buffers == fs.buffers && r.sent == []
    ensures path == "/" || path in fs.buffers ==> r == Reply(fs, [], Ok([]))
    ensures path != "/" && path !in fs.buffers ==>
      var gm := PathToGuildmoji(fs, path, server).out;
      && (gm.Err? ==> r.out == Err(gm.error))
      && (gm.Ok? ==> r.out == Ok([URL_XATTR, CREATEDBY_XATTR]))
  {
    if path == "/" || path in fs.buffers then Reply(fs, [], Ok([]))
    else
      var gm := PathToGuildmoji(fs, path, server);
      match gm.out
      case Err(e) => Reply(gm.fs, [], Err(e))
      case Ok((g, e)) =>
        if g.None? && e.Some? then
          assert false;
          Reply(gm.fs, [], Err(Os(ENOENT)))
        else Reply(gm.fs, [], Ok([URL_XATTR, CREATEDBY_XATTR]))
  }

  /** `_user_string`: `username#discriminator`. */
  function UserString(u: User): (s: string)
    ensures EndsWith(s, "#" + u.discriminator) && StartsWith(s, u.username)
  {
    var s := u.username + "#" + u.discriminator;
    assert s[..|u.username|] == u.username;
    assert s[|s| - |"#" + u.discriminator|..] == "#" + u.discriminator;
    s
  }

  /**
   `getxattr`: `ENODATA` for the root or a file being written; otherwise,
   once the path resolves, the emoji's CDN URL or its creator (`KeyError`
   when the server did not say who that is), and `ENODATA` for any other
   attribute.  On a path naming no emoji the two known
   attributes fail with `TypeError`, as the program looks into a missing
   emoji; `ENOENT` comes only from resolution.
   */
  function Getxattr(fs: DiscordFs, path: string, attr: string, server: Server): (r: Reply<string>)
    ensures r.fs.buffers == fs.buffers && r.sent == []
    ensures path == "/" || path in fs.buffers ==> r == Reply(fs, [], Err(Os(ENODATA)))
    ensures path != "/" && path !in fs.buffers ==>
      var gm := PathToGuildmoji(fs, path, server).out;
      && (gm.Err? ==> r.out == Err(gm.error))
      && (gm.Ok? && attr != URL_XATTR && attr != CREATEDBY_XATTR ==> r.out == Err(Os(ENODATA)))
      && (gm.Ok? && gm.value.1.None? && (attr == URL_XATTR || attr == CREATEDBY_XATTR) ==> r.out == Err(TypeError))
      && (gm.Ok? && gm.value.1.Some? && attr == URL_XATTR ==> r.out == Ok(EmojiUrl(gm.value.1.value)))
      && (gm.Ok? && gm.value.1.Some? && attr == CREATEDBY_XATTR && gm.value.1.value.user.Some? ==>
            r.out == Ok(UserString(gm.value.1.value.user.value)))
      && (gm.Ok? && gm.value.1.Some? && attr == CREATEDBY_XATTR && gm.value.1.value.user.None? ==>
            r.out == Err(KeyError))
  {
    if path == "/" || path in fs.buffers then Reply(fs, [], Err(Os(ENODATA)))
    else
      var gm := PathToGuildmoji(fs, path, server);
      match gm.out
      case Err(e) => Reply(gm.fs, [], Err(e))
      case Ok((_, e)) =>
        if attr == URL_XATTR then
          Reply(gm.fs, [], if e.None? then Err(TypeError) else Ok(EmojiUrl(e.value)))
        else if attr == CREATEDBY_XATTR then
          Reply(gm.fs, [], if e.None? then Err(TypeError)
                           else if e.value.user.None? then Err(KeyError)
                           else Ok(UserString(e.value.user.value)))
        else Reply(gm.fs, [], Err(Os(ENODATA)))
  }

  /** The slice `read` answers for an emoji: its image is fetched from the CDN. */
  function ReadEmoji(e: Emoji, size: nat, offset: nat, get: string -> Result<Bytes>,
                     decode: string -> Result<Bytes>): (r: Result<Bytes>)
    ensures r.Ok? <==> get(EmojiUrl(e)).Ok?
    ensures r.Ok? ==> r.value == ReadAt(get(EmojiUrl(e)).value, offset, size) && |r.value| <= size
    ensures r.Err? ==> r.error == get(EmojiUrl(e)).error
  {
    var url := EmojiUrl(e);
    match Utils.EmojiBytes(url, get(url), decode)
    case Err(err) => Err(err)
    case Ok(None) => Err(TypeError)
    case Ok(Some(b)) => Ok(ReadAt(b, offset, size))
  }

  /**
   `read`: a path with a write buffer reads from it and touches nothing
   else; a path naming an emoji reads a slice of its image; anything else
   is `ENOENT`.
   */
  function Read(fs: DiscordFs, path: string, size: nat, offset: nat, server: Server,
                get: string -> Result<Bytes>, decode: string -> Result<Bytes>): (r: Reply<Bytes>)
    ensures r.fs.buffers == fs.buffers && r.sent == []
    ensures path in fs.buffers ==> r.fs == fs && r.out == Ok(ReadAt(fs.buffers[path], offset, size))
    ensures path !in fs.buffers ==>
      var gm := PathToGuildmoji(fs, path, server).out;
      && (gm.Err? ==> r.out == Err(gm.error))
      && (gm.Ok? && (gm.value.0.None? || gm.value.1.None?) ==> r.out == Err(Os(ENOENT)))
      && (gm.Ok? && gm.value.1.Some? ==> r.out == ReadEmoji(gm.value.1.value, size, offset, get, decode))
      && (gm.Ok? && gm.value.1.Some? && get(EmojiUrl(gm.value.1.value)).Ok? ==>
            r.out == Ok(ReadAt(get(EmojiUrl(gm.value.1.value)).value, offset, size)))
    ensures r.out.Ok? ==> |r.out.value| <= size
  {
    if path in fs.buffers then Reply(fs, [], Ok(ReadAt(fs.buffers[path], offset, size)))
    else
      var gm := PathToGuildmoji(fs, path, server);
      match gm.out
      case Err(e) => Reply(gm.fs, [], Err(e))
      case Ok((Some(g), Some(e))) =>
        Reply(gm.fs, [], ReadEmoji(e, size, offset, get, decode))
      case Ok(_) => Reply(gm.fs, [], Err(Os(ENOENT)))
  }

  /** The URL fragment of a guild's emoji collection. */
  function EmojisFrag(g: Guild): string {
    "guilds/" + g.id + "/emojis"
  }

  /**
   `unlink`: a path naming an emoji asks the server to delete it and, only
   if that call succeeds, forgets that guild's emoji listing (and no other);
   a guild path is `EPERM`; anything else `ENOENT`.
   */
  function Unlink(fs: DiscordFs, path: string, server: Server, outcome: Result<()>): (r: Reply<()>)
    ensures r.fs.buffers == fs.buffers
    ensures var gm := PathToGuildmoji(fs, path, server);
      && (gm.out.Err? ==> r.out == Err(gm.out.error) && r.sent == [])
      && (gm.out.Ok? && gm.out.value.0.None? ==> r.out == Err(Os(ENOENT)) && r.sent == [])
      && (gm.out.Ok? && gm.out.value.0.Some? && gm.out.value.1.None? ==> r.out == Err(Os(EPERM)) && r.sent == [])
      && (gm.out.Ok? && gm.out.value.0.Some? && gm.out.value.1.Some? ==>
            var g, e := gm.out.value.0.value, gm.out.value.1.value;
            && r.sent == [Delete(EmojisFrag(g) + "/" + e.id)]
            && r.out == outcome
            && (outcome.Ok? ==> r.fs == InvalidateGuild(gm.fs, g.id))
            && (outcome.Err? ==> r.fs == gm.fs))
  {
    var gm := PathToGuildmoji(fs, path, server);
    match gm.out
    case Err(e) => Reply(gm.fs, [], Err(e))
    case Ok((Some(g), Some(e))) =>
      var call := Delete(EmojisFrag(g) + "/" + e.id);
      if outcome.Ok? then Reply(InvalidateGuild(gm.fs, g.id), [call], outcome)
      else Reply(gm.fs, [call], outcome)
    case Ok((Some(g), None)) => Reply(gm.fs, [], Err(Os(EPERM)))
    case Ok((None, _)) => Reply(gm.fs, [], Err(Os(ENOENT)))
  }

  /**
   `create`: checks, in this order, that the path's guild exists
   (`ENOENT`), that the user may manage its emoji (`EPERM`) and that the
   file has an image extension (`EINVAL`); then installs an empty buffer,
   replacing any earlier one, and answers 0.
   */
  function Create(fs: DiscordFs, path: string, server: Server): (r: Reply<int>)
    ensures r.sent == [] && r.fs.emojis == fs.emojis
    ensures var found := PathToGuild(fs, path, server).out;
      && (found.Err? ==> r.out == Err(found.error) && r.fs.buffers == fs.buffers)
      && (found == Ok(None) ==> r.out == Err(Os(ENOENT)) && r.fs.buffers == fs.buffers)
      && (found.Ok? && found.value.Some? && !GuildIsWritable(found.value.value) ==>
            r.out == Err(Os(EPERM)) && r.fs.buffers == fs.buffers)
      && (found.Ok? && found.value.Some? && GuildIsWritable(found.value.value) && PathToExtension(path).Err? ==>
            r.out == Err(Os(EINVAL)) && r.fs.buffers == fs.buffers)
    ensures r.out.Ok? <==>
      var found := PathToGuild(fs, path, server).out;
      found.Ok? && found.value.Some? && GuildIsWritable(found.value.value) && PathToExtension(path).Ok?
    ensures r.out.Ok? ==>
      && r.out.value == 0
      && r.fs.buffers == fs.buffers[path := []]
      && r.fs.guilds == PathToGuild(fs, path, server).fs.guilds
  {
    var found := PathToGuild(fs, path, server);
    match found.out
    case Err(e) => Reply(found.fs, [], Err(e))
    case Ok(None) => Reply(found.fs, [], Err(Os(ENOENT)))
    case Ok(Some(g)) =>
      if !GuildIsWritable(g) then Reply(found.fs, [], Err(Os(EPERM)))
      else if PathToExtension(path).Err? then Reply(found.fs, [], Err(Os(EINVAL)))
      else Reply(found.fs.(buffers := found.fs.buffers[path := []]), [], Ok(0))
  }

  /** `write`: as for Slack, the data lands at `offset` in the path's buffer; `KeyError` without one. */
  function Write(fs: DiscordFs, path: string, data: Bytes, offset: nat): (r: Reply<nat>)
    ensures r.sent == [] && r.fs.guilds == fs.guilds && r.fs.emojis == fs.emojis
    ensures path !in fs.buffers ==> r.fs == fs && r.out == Err(KeyError)
    ensures path in fs.buffers ==>
      && r.out == Ok(|data|)
      && r.fs.buffers.Keys == fs.buffers.Keys
      && r.fs.buffers[path] == WriteAt(fs.buffers[path], data, offset)
      && (forall p :: p in fs.buffers && p != path ==> r.fs.buffers[p] == fs.buffers[p])
  {
    if path !in fs.buffers then Reply(fs, [], Err(KeyError))
    else Reply(fs.(buffers := fs.buffers[path := WriteAt(fs.buffers[path], data, offset)]), [], Ok(|data|))
  }

  /** The MIME subtype sent for an extension: `jpg` (exactly, in lower case) becomes `jpeg`. */
  function ImageMime(ext: string): string {
    if ext == "jpg" then "jpeg" else ext
  }

  /**
   `release`: for a path with a buffer, resolve its guild, emoji name and
   extension, then post the new emoji (`outcome` is how that call ends):
   its name and the buffer as a base64 `data:` URL.  However the post ends,
   the buffer is dropped and the guild's emoji listing forgotten.  If the
   path names no guild, building the post fails (`TypeError`) after the
   buffer is dropped and nothing is sent.  If resolving the guild or the
   extension fails, the buffer stays.  Without a buffer nothing happens.
   */
  function Release(fs: DiscordFs, path: string, server: Server, outcome: Result<()>): (r: Reply<()>)
    ensures path !in fs.buffers ==> r == Reply(fs, [], Ok(()))
    ensures path in fs.buffers ==>
      var found := PathToGuild(fs, path, server);
      var ext := PathToExtension(path);
      && (found.out.Err? ==> r.out == Err(found.out.error) && r.sent == [] && r.fs.buffers == fs.buffers)
      && (found.out.Ok? && ext.Err? ==> r.out == Err(ValueError) && r.sent == [] && r.fs.buffers == fs.buffers)
      && (found.out.Ok? && ext.Ok? ==> r.fs.buffers == fs.buffers - {path})
      && (found.out == Ok(None) && ext.Ok? ==> r.out == Err(TypeError) && r.sent == [] && r.fs == found.fs.(buffers := fs.buffers - {path}))
      && (found.out.Ok? && found.out.value.Some? && ext.Ok? ==>
            var g := found.out.value.value;
            && r.sent == [Post(EmojisFrag(g), PathToEmojiName(path), Utils.ImageDataUrl(ImageMime(ext.value), fs.buffers[path]))]
            && r.out == outcome
            && r.fs == InvalidateGuild(found.fs.(buffers := fs.buffers - {path}), g.id))
  {
    if path !in fs.buffers then Reply(fs, [], Ok(()))
    else
      var buf := fs.buffers[path];
      var found := PathToGuild(fs, path, server);
      var eh := PathToEmojiName(path);
      match found.out
      case Err(e) => Reply(found.fs, [], Err(e))
      case Ok(g) =>
        match PathToExtension(path)
        case Err(e) => Reply(found.fs, [], Err(e))
        case Ok(ext) =>
          var dropped := found.fs.(buffers := fs.buffers - {path});
          match g
          case None => Reply(dropped, [], Err(TypeError))
          case Some(guild) =>
            var call := Post(EmojisFrag(guild), eh, Utils.ImageDataUrl(ImageMime(ext), buf));
            Reply(InvalidateGuild(dropped, guild.id), [call], outcome)
  }

  /** No accepted image extension contains a comma, so it can sit in a `data:` URL's header. */
  lemma AcceptedExtensionHasNoComma(ext: string)
    requires Lower(ext) in IMAGE_EXTENSIONS
    ensures ',' !in ImageMime(ext)
  {
  }

  /**
   What `release` posts for an accepted file carries the buffer exactly: the
   size `getattr` derives from such a URL is the buffer's length, and with a
   decoder that inverts base64 the bytes `read` derives are the buffer.
   */
  lemma PostedImageCarriesBuffer(path: string, image: Bytes, head: Result<nat>, get: Result<Bytes>,
                                 decode: string -> Result<Bytes>)
    requires PathToExtension(path).Ok?
    ensures Utils.ContentLength(Utils.ImageDataUrl(ImageMime(PathToExtension(path).value), image), head)
            == Ok(Some(|image|))
    ensures decode(Base64.Encode(image)) == Ok(image) ==>
      Utils.EmojiBytes(Utils.ImageDataUrl(ImageMime(PathToExtension(path).value), image), get, decode)
      == Ok(Some(image))
  {
    var mime := ImageMime(PathToExtension(path).value);
    AcceptedExtensionHasNoComma(PathToExtension(path).value);
    Utils.SizeOfImageDataUrl(mime, image, head);
    if decode(Base64.Encode(image)) == Ok(image) {
      Utils.BytesOfImageDataUrl(mime, image, get, decode);
    }
  }

  /** A file `create` accepted is a private, empty regular file until written. */
  lemma CreatedFileIsEmpty(fs: DiscordFs, path: string, server: Server, head: string -> Result<nat>)
    requires path != "/"
    requires Create(fs, path, server).out.Ok?
    ensures Getattr(Create(fs, path, server).fs, path, server, head).out
            == Ok(Stat(S_IFREG + PERM_RW_OWNER, 1, Some(0)))
  {
  }

  /**
   Creating a file in a guild, writing `data` at offset 0 and releasing it
   posts one new emoji to that guild, named after the file, whose image is
   exactly `data`; the buffer is gone and the guild's listing is refetched
   next time.
   */
  lemma CreateWriteReleasePosts(fs: DiscordFs, path: string, server: Server, data: Bytes, outcome: Result<()>)
    requires Create(fs, path, server).out.Ok?
    ensures var g := PathToGuild(fs, path, server).out.value.value;
      var fs2 := Write(Create(fs, path, server).fs, path, data, 0).fs;
      var rel := Release(fs2, path, server, outcome);
      && rel.sent == [Post(EmojisFrag(g), PathToEmojiName(path),
                           Utils.ImageDataUrl(ImageMime(PathToExtension(path).value), data))]
      && rel.out == outcome
      && path !in rel.fs.buffers
      && g.id !in rel.fs.emojis
  {
    var found := PathToGuild(fs, path, server);
    var fs1 := Create(fs, path, server).fs;
    var fs2 := Write(fs1, path, data, 0).fs;
    FreshWrite(data);
    assert fs2.buffers[path] == data;
    assert '/' in path;
    assert fs2.guilds == found.fs.guilds == Some(Guilds(fs, server).1.value);
    assert PathToGuild(fs2, path, server).out == found.out;
  }
}
