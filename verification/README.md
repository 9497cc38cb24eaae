# emojifs in Dafny

emojifs is a FUSE filesystem that shows the custom emoji of Slack teams
and Discord guilds as files. Listing a directory lists the emoji. Reading
a file gives the image. Writing a new file and closing it uploads an emoji.
Deleting a file deletes the emoji. A symbolic link creates an alias on
Slack. This project models the parts of the program that decide what each
filesystem call does, and proves properties of them:

- **The muxer** (`Muxer`, `muxer.py`) composes several backends under one
  tree. A mount table maps path prefixes to backends. The muxer checks that
  no mount point is a prefix of another, and works out the directories
  above the mount points (the "intermediates"). It serves those
  directories itself. Every other path goes to the backend whose mount
  point is its greatest prefix, with that prefix stripped.
- **The Slack backend** (`Slack`, `slack.py`). Its state is the map of
  write buffers plus the cached emoji listing. Each operation takes that
  state and the server's answers, and returns the new state, the requests
  it sent and its answer.
- **The Discord backend** (`Discord`, `discord.py`) is modelled the same
  way. It has guild directories, a cached guild list, per-guild cached
  emoji listings and the `MANAGE_EMOJIS` permission bit. It uploads
  images as `data:` URLs.
- **The request layer** (`Http`): the two `_request` retry loops on HTTP
  429, `raise_for_status` and Slack's `ok` check, plus Slack's page loop.
  The backend operations take the outcome of their requests as a
  parameter. For Discord that outcome is the one the corrected request
  gives (see Findings).
- **The helpers in `utils.py`** (`Utils`, with `Base64`): the size and the
  bytes of an emoji from an `http(s)` or base64 `data:` URL, and the
  `User-Agent` header.

The network is never called. Whatever the server would answer is a
parameter of the operation:
- the emoji or guild listing, as a `Result`;
- the result of a `HEAD` or `GET` for a URL, as a function of the URL;
- how a `POST` or `DELETE` ended, as a `Result<()>`;
- a script of HTTP responses for the retry loops;
- `base64.b64decode`, as a function.

Python's own behaviour is modelled where the program depends on it:
- `str` methods: `PyStr`;
- `str` ordering, `sorted` and `bisect_right`: `Lex`;
- the insertion-ordered `dict`: `PyDict`;
- `io.BytesIO`: `WriteBuffer`.

Exceptions that escape a handler are `Types.Error` values, next to the
POSIX error numbers. `ScriptEnded` is the one error that belongs to the
model and not the program: it is the outcome when a finite response
script runs out, for instance while the server keeps answering 429.

Two behaviours of the Discord backend are worth knowing, and the model
keeps both:
- Discord's `unlink` forgets the guild's emoji listing only when the
  delete succeeds (`emojifs/discord.py:273-285`): a failed request raises
  before the invalidation is reached.
- Discord's `listxattr` offers both attribute names on a guild directory,
  and `getxattr` there fails with `TypeError`, because it reads fields of
  the missing emoji (`emojifs/discord.py:239-258`).

## Model

| member | source | states |
|---|---|---|
| Muxer.New | emojifs/muxer.py:31-55 | Building a muxer fails with `AssertionError` or yields a valid one: mount points sorted and distinct, the same set as the dict's keys, each mapped to the backend the dict gave it, the intermediates being exactly `/` plus every ancestor directory of a mount point minus the mount points |
| Muxer.NewFailsIffNested | emojifs/muxer.py:43-53 | Construction fails exactly when some mount point is a proper prefix of another, although only sorted neighbours are compared |
| Muxer.AdjacentSuffices | emojifs/muxer.py:53 | On a sorted list, some element being a prefix of a later one is equivalent to some element being a prefix of its next neighbour |
| Muxer.SortedNeighboursNested | emojifs/muxer.py:43-53 | For distinct keys, neighbours of the sorted keys nest exactly when two of the keys nest |
| Muxer.Intermediates | emojifs/muxer.py:46-52 | The intermediates are distinct and are exactly `/` and the discovered ancestor directories, excluding the mount points |
| Muxer.Segments | emojifs/muxer.py:48 | `filter(len, p.split('/'))` gives the non-empty path segments, none containing `/` |
| Muxer.Dedup | emojifs/muxer.py:49 | The set union keeps every discovered directory once and nothing else |
| Muxer.Without | emojifs/muxer.py:50 | Subtracting the mount points removes exactly them |
| Muxer.ParentIsIntermediate | emojifs/muxer.py:46-50 | The top directory `/a` of a mount point `/a/...` is an intermediate unless it is itself a mount point |
| Muxer.Remainder | emojifs/muxer.py:69-71 | The path a backend sees is `/` for its own mount point, and otherwise what follows the mount point in the path |
| Muxer.MapPath | emojifs/muxer.py:57-71 | Mapping either fails with `ValueError` or selects a mount point that is a prefix of the path, with the stripped remainder and that mount point's backend |
| Muxer.MapPathSelectsPrefix | emojifs/muxer.py:60-71 | Whenever some mount point is a prefix of the path, mapping succeeds with that mount point; the bisection cannot miss it |
| Muxer.MapPathFailsIff | emojifs/muxer.py:60-68 | Mapping fails exactly when no mount point is a prefix of the path |
| Muxer.Dispatch | emojifs/muxer.py:112-146 | Every delegated call keeps its operation and arguments and goes to the backend of a mount point prefixing the path, with the remainder path; it fails with `ValueError` only when no mount point prefixes the path |
| Muxer.GetattrOp | emojifs/muxer.py:77-91 | An intermediate is a read-only directory; a path under no mount point is `ENOENT`; any other path under a mount point is always forwarded as `getattr`, with the same arguments, to the backend of a mount point that prefixes it |
| Muxer.Children | emojifs/muxer.py:99-103 | An entry is listed exactly when some path in the list lies directly below the parent, is not `/`, and the entry is its last segment |
| Muxer.IntermediateListing | emojifs/muxer.py:95-107 | The listing of an intermediate is `.`, `..`, then the child intermediates, then the child mount points |
| Muxer.ReaddirOp | emojifs/muxer.py:93-110 | The muxer answers a listing itself exactly for intermediates, with `.` and `..` first and only single-segment names after; an unmapped path raises `ValueError`; any other path under a mount point is always forwarded as `readdir` to a prefixing mount point's backend |
| Muxer.ReaddirListsChildren | emojifs/muxer.py:95-107 | A name appears after `.` and `..` exactly when it is a child of the directory among the intermediates or the mount points |
| Muxer.ReaddirNeverListsRoot | emojifs/muxer.py:103 | `/` is never listed as a child |
| Http.Throttled | emojifs/slack.py:104-108 | Counts the leading 429 responses of a script: all before it are 429 and the next one is not |
| Http.SlackVerdict | emojifs/slack.py:109-116 | A Slack response is accepted exactly when it is not an HTTP error and its body says `ok`; an HTTP error raises `HttpError`, a refusal `AssertionError` |
| Http.SlackRequest | emojifs/slack.py:96-116 | The same URL is retried once per leading 429; the first other response decides the result; the retry time is recorded for the URL after the last 429 |
| Http.DiscordVerdict | emojifs/discord.py:79-85 | A Discord response is accepted exactly when it is not an HTTP error, which raises `HttpError` |
| Http.DiscordRequestAsWritten | emojifs/discord.py:61-90 | The request as written makes at most one call per scripted response, the first to the API base plus the fragment; a first answer other than 429 settles it after that one call; a 429 carrying `X-RateLimit-Reset-After` raises `TypeError` after that one call, with nothing recorded |
| Http.RetryDoublesBase | emojifs/discord.py:74-83 | After one 429 without a rate-limit header, the retry goes to the API base prefixed twice |
| Http.AsWrittenRetriesGrowUrl | emojifs/discord.py:74-83 | As written, each retry adds one more copy of the API base: call `i` goes to the base written `i + 1` times followed by the fragment |
| Http.DiscordSend | emojifs/discord.py:74-90 | Corrected retry loop: every call goes to the same URL, once per leading 429 plus one; the first non-429 response decides the result |
| Http.DiscordRequest | emojifs/discord.py:61-90 | Corrected request: every call goes to the API base plus the fragment |
| Http.ThrottledPrefix | emojifs/discord.py:79-83 | Answers opening with `k` responses of 429 and then another status keep the request retrying exactly `k` times |
| Http.RetriedUntilAnswered | emojifs/discord.py:61-90 | Corrected request: any number of 429s before an answer that is not an HTTP error gives one call per answer, all to the same URL, returns that answer, and records a retry time for the URL |
| Http.OneRetryThenSuccess | emojifs/discord.py:61-90 | Corrected request: one 429 then 200 makes two calls to the same URL, succeeds, and records a retry time for it |
| Http.RequestAllPages | emojifs/slack.py:118-133 | Pages 0, 1, 2, ... are requested while the page count announced so far exceeds the pages fetched; the result is every page's items in order, or the first failing page's error |
| Slack.PathToName | emojifs/slack.py:173-178 | The emoji name of a path is the text after its first `/` and before the next `.`, and contains no `.` |
| Slack.HttpExtension | emojifs/slack.py:184-186 | The extension of an `http` URL is its text after the last `.`, a suffix of the URL |
| Slack.DataExtension | emojifs/slack.py:188-190 | The extension of a `data:image/` URL is the text right after `data:image/`, cut at the first `;`, at the end of the URL, or at the next `data:image/` (where `split('data:image/')[1]` ends), whichever comes first |
| Slack.EmojiToFilename | emojifs/slack.py:180-193 | A file name exists exactly for `http` and `data:image/` URLs, and is the listed name, a dot, and the extension the URL gives |
| Slack.FilenameNamesEmoji | emojifs/slack.py:173-193 | A listed file name maps back to the emoji name it was made from, when that name has no `.` |
| Slack.NameOfFile | emojifs/slack.py:173-178 | The file `/<name>.<ext>` names `name` |
| Slack.ByName | emojifs/slack.py:163-168 | The listing keyed by name is a well-formed dict whose keys are exactly the listed names |
| Slack.AllEmoji | emojifs/slack.py:163-171 | A cached listing is reused unchanged; otherwise the fetched listing is cached, and a failed fetch caches nothing |
| Slack.Getattr | emojifs/slack.py:197-240 | Root is a writable directory (`ValueError` for a team without emoji); a buffered file is a private file of the buffer's size; an alias is a link and other emoji read-only files sized by their URL; unknown names are `ENOENT` |
| Slack.Readdir | emojifs/slack.py:242-243 | `.`, `..`, then one file name per emoji in listing order |
| Slack.Readlink | emojifs/slack.py:245-258 | Unknown names are `ENOENT`, non-aliases `EINVAL`; an alias points at the file of the emoji it stands for; a failed listing answers with the listing's own error |
| Slack.Read | emojifs/slack.py:260-272 | A buffered file reads from its buffer; a failed listing fails the read; an unknown name is `ENOENT`; a listed emoji reads the slice `[offset:offset+size]` of the bytes fetched for its URL, a failed fetch passes its error on, and a URL that yields no bytes is `TypeError`; no more than `size` bytes are returned |
| Slack.ReadHttpEmoji | emojifs/slack.py:266-272 | A listed emoji with an `http` URL reads as the requested slice of the body the web server returns |
| Slack.Listxattr | emojifs/slack.py:274-282 | No attributes for the root or a buffered file; otherwise a failed listing passes its error on, a listed name gets the URL and creator attributes, and an unknown name is `ENOENT` |
| Slack.Getxattr | emojifs/slack.py:284-297 | `ENODATA` for the root or a buffered file; a failed listing passes its error on; an unknown name raises `KeyError`; a listed emoji answers its URL, its creator's display name, or `ENODATA` for any other attribute |
| Slack.Create | emojifs/slack.py:316-318 | Installs an empty buffer for the path, leaves every other buffer and the cache, and answers 0 |
| Slack.Write | emojifs/slack.py:320-323 | Writes into the path's buffer only and answers the data's length; no buffer raises `KeyError` |
| Slack.Truncate | emojifs/slack.py:339-342 | Keeps at most the first `length` bytes of the path's buffer only; no buffer raises `KeyError` |
| Slack.Release | emojifs/slack.py:327-337 | Uploads the whole buffer under the path's emoji name, then drops the buffer and the cache whatever the upload's outcome; without a buffer does nothing |
| Slack.Unlink | emojifs/slack.py:305-311 | A listed emoji is removed on the server and the cache cleared whatever the outcome; an unknown name is `ENOENT` and sends nothing |
| Slack.Symlink | emojifs/slack.py:344-350 | Aliases the target name to an existing source emoji and clears the cache; an unknown source is `ENOENT` |
| Slack.WrittenBytesReadBack | emojifs/slack.py:316-323 | Data written to a freshly created file reads back unchanged |
| Slack.CreateWriteReleaseUploads | emojifs/slack.py:316-337 | Create, write and release uploads exactly the written bytes under the path's name and leaves no buffer and no cache |
| Discord.ById | emojifs/discord.py:93-97 | The guild list keyed by id is a well-formed dict whose keys are exactly the listed ids |
| Discord.ByName | emojifs/discord.py:100-103 | A guild's emoji keyed by name is a well-formed dict whose keys are exactly the listed names |
| Discord.Guilds | emojifs/discord.py:92-97 | A cached guild dict is reused; otherwise the server's list keyed by id is returned and cached; a failure returns the server's error and changes nothing |
| Discord.Emojis | emojifs/discord.py:99-103 | A guild's cached emoji dict is reused; otherwise the server's listing keyed by name is returned and cached for that guild only; a failed fetch returns the server's error and caches nothing |
| Discord.InvalidateGuild | emojifs/discord.py:105-109 | Forgets the emoji dict of that guild and of no other |
| Discord.EmojiUrl | emojifs/discord.py:111-113 | The CDN URL of an emoji starts with the CDN emoji path and its id, and ends with its extension |
| Discord.EmojiFilename | emojifs/discord.py:115-117 | An emoji's file name is its name, a dot and its extension (`gif` when animated) |
| Discord.UserString | emojifs/discord.py:119-120 | A creator is shown as the user name, then `#` and the discriminator |
| Discord.GuildToPath | emojifs/discord.py:126-133 | A guild or string becomes a directory name without `/`; any other value raises `ValueError` |
| Discord.GuildToPathIdempotent | emojifs/discord.py:126-133 | Turning a directory name into a directory name again changes nothing |
| Discord.GuildDir | emojifs/discord.py:126-133 | A guild's directory name contains no `/` |
| Discord.GuildSegment | emojifs/discord.py:137 | The guild part of a path is the segment after the first `/`; a path without `/` raises `IndexError` |
| Discord.FirstNamed | emojifs/discord.py:144-147 | Finds the first guild whose directory name is the segment, or none if no guild has that name |
| Discord.PathToGuild | emojifs/discord.py:135-147 | Resolves a path's guild segment to the guild with that id, else to the first guild with that directory name, else to no guild; a path without `/` raises `IndexError`; a failed guild list answers with its own error |
| Discord.PathToEmojiName | emojifs/discord.py:149-156 | The emoji name is the third path segment up to its first `.`; a path with fewer segments or an empty third names no emoji |
| Discord.EmojiFileNamesEmoji | emojifs/discord.py:115-117 | The file of an emoji inside a guild directory names that emoji again |
| Discord.PathToGuildmoji | emojifs/discord.py:158-173 | An unknown guild gives `(None, None)`; a guild path or an empty emoji name gives `(guild, None)`; a non-empty emoji name is looked up in the guild's listing: found it gives `(guild, emoji)`, missing it is `ENOENT`, and a failed listing passes its error on |
| Discord.UnknownEmojiIsEnoent | emojifs/discord.py:161-168 | A named emoji missing from the guild's listing is `ENOENT` |
| Discord.ListedEmojiResolves | emojifs/discord.py:158-166 | The file listed for an emoji in its guild's directory resolves back to that guild and emoji |
| Discord.WritableIsBit30 | emojifs/discord.py:175-177 | A guild is writable exactly when bit 30 of its permissions is set; other bits do not matter |
| Discord.GuildDirStat | emojifs/discord.py:207-217 | A guild directory is readable and searchable, with the owner write bit exactly when the guild is writable |
| Discord.Getattr | emojifs/discord.py:179-228 | Root is a writable directory; a buffered file is a private file of the buffer's size; a guild is a guild directory; an emoji is a read-only file sized by its URL; anything else is `ENOENT` |
| Discord.CreatedFileIsEmpty | emojifs/discord.py:179-228 | Right after `create`, `getattr` reports an empty private file |
| Discord.GuildDirs | emojifs/discord.py:233 | One directory name per guild, in order |
| Discord.EmojiFilenames | emojifs/discord.py:236 | One file name per emoji, in order |
| Discord.TopEntries | emojifs/discord.py:230-234 | The root lists `.`, `..` and every guild directory; other paths start with `.` and `..` only |
| Discord.EmojiEntries | emojifs/discord.py:234-237 | Succeeds exactly when the path resolves and, for a guild path, that guild's listing is fetched; a guild directory then adds one file per emoji of that guild after the entries so far |
| Discord.Readdir | emojifs/discord.py:230-237 | Succeeds exactly when the guild list (at the root), the path's resolution and, for a guild, its emoji listing all succeed; every listing starts with `.` and `..`; the root lists exactly the guilds, followed by the emoji files of a guild the root itself resolves to; a guild path lists exactly its emoji files |
| Discord.Listxattr | emojifs/discord.py:239-245 | No attributes for the root or a buffered file; otherwise, once the path resolves, both attribute names, for an emoji, a guild directory or a path naming no guild |
| Discord.Getxattr | emojifs/discord.py:247-258 | `ENODATA` for the root or a buffered file; an emoji's URL or creator as `username#discriminator`, `KeyError` when the emoji carries no `user`; `TypeError` for those two on a path naming no emoji; `ENODATA` for any other attribute |
| Discord.ReadEmoji | emojifs/discord.py:267-269 | Reading an emoji succeeds exactly when its URL can be fetched, yields the slice `[offset:offset+size]` of the body, and otherwise fails with the fetch's error |
| Discord.Read | emojifs/discord.py:260-271 | A buffered file reads from its buffer; a failed resolution passes its error on; a path naming no emoji is `ENOENT`; an emoji reads as `ReadEmoji` does, its fetch's error included; at most `size` bytes are returned |
| Discord.Unlink | emojifs/discord.py:273-285 | An emoji is deleted on the server, and its guild's listing is forgotten only when that succeeds; a guild is `EPERM`; anything else `ENOENT` |
| Discord.PathToExtension | emojifs/discord.py:287-294 | Accepts exactly the extensions after the last `.` that are an image type in any case; anything else raises `ValueError` |
| Discord.EmojiFileExtensionAccepted | emojifs/discord.py:287-294 | Every file name `readdir` lists has an accepted extension |
| Discord.AcceptedExtensionHasNoComma | emojifs/discord.py:322-326 | No accepted extension can break the header of the uploaded `data:` URL |
| Discord.Create | emojifs/discord.py:296-307 | Succeeds exactly for a writable guild and an image extension, checked in that order with `ENOENT`, `EPERM` and `EINVAL`; success installs an empty buffer |
| Discord.Write | emojifs/discord.py:309-312 | Writes into the path's buffer only and answers the data's length; no buffer raises `KeyError` |
| Discord.Release | emojifs/discord.py:314-333 | Posts the buffer as a base64 `data:` URL to the guild, drops the buffer and forgets that guild's listing; a failed guild or extension lookup keeps the buffer |
| Discord.PostedImageCarriesBuffer | emojifs/discord.py:325-326 | The posted `data:` URL reports the buffer's size and decodes back to the buffer |
| Discord.CreateWriteReleasePosts | emojifs/discord.py:296-333 | Create, write and release posts exactly the written bytes and leaves no buffer and no cached listing for the guild |
| Utils.SetHeader | emojifs/utils.py:14 | Storing a header in a `requests` header dict: a lookup of that name in any case finds the new value, no other lookup changes, and the dict stays filed by lower-case names |
| Utils.SetUserAgent | emojifs/utils.py:12-14 | The `User-Agent` header, found whatever the case of its name, gets the program's token in front of the old value; no other header changes; a header dict without one raises `KeyError` |
| Utils.UserAgent | emojifs/utils.py:14 | The new value starts with `emojifs/<version>` and ends with the old value |
| Utils.DataPayload | emojifs/utils.py:34-37 | A `data:` URL's payload is what follows the first comma, accepted exactly when the header ends in `base64` |
| Utils.DataSize | emojifs/utils.py:53-54 | The size computed from base64 text is never negative and within a few bytes of three quarters of its length; for a length that is a multiple of four it is exactly three bytes per four characters less one per `=` among the last two |
| Utils.ContentLength | emojifs/utils.py:41-54 | An `http` URL's size is what `HEAD` reports, a `data:` URL's is computed from its payload, and other URLs have none |
| Utils.EmojiBytes | emojifs/utils.py:27-38 | An `http` URL's bytes are what `GET` returns, a `data:` URL's are what the decoder makes of the text after its first comma (its error passed on), a `data:` URL whose header does not end in `base64` is `ValueError`, and other URLs have none |
| Utils.PayloadOfImageDataUrl | emojifs/utils.py:34-37 | The payload of an uploaded image URL is exactly its base64 text |
| Utils.DataSizeOfEncoding | emojifs/utils.py:53-54 | The size computed from base64 text equals the number of bytes it encodes |
| Utils.SizeOfImageDataUrl | emojifs/utils.py:49-54 | The size reported for an uploaded image URL is the image's size |
| Utils.BytesOfImageDataUrl | emojifs/utils.py:27-38 | The bytes read from an uploaded image URL are the image itself |
| Base64.Encode | emojifs/discord.py:326 | The base64 text of some bytes has four characters per started group of three, and holds only alphabet characters and `=` |
| Base64.Padding | emojifs/utils.py:53 | The `=` among the last two characters number exactly the bytes missing from the last group |
| WriteBuffer.WriteAt | emojifs/slack.py:320-323 | A write puts the data at the offset, zero-fills a gap past the end, keeps every other byte, and writing nothing changes nothing |
| WriteBuffer.ReadAt | emojifs/slack.py:260-264 | A read returns the bytes from the offset on, at most `size`, clipped at the end |
| WriteBuffer.Truncate | emojifs/slack.py:339-342 | Truncation keeps a prefix of the buffer of at most `length` bytes |
| WriteBuffer.ReadAfterWrite | emojifs/slack.py:260-264 | Reading back the range just written returns exactly the data written |
| WriteBuffer.TruncateThenRead | emojifs/slack.py:339-342 | After truncation the buffer reads as its first `length` bytes |
| PyStr.SplitN | emojifs/slack.py:176 | `split(sep, maxsplit)` gives at most `maxsplit + 1` pieces that join back to the string, only the last of which may contain the separator |
| PyStr.Split | emojifs/muxer.py:48 | `split(sep)` gives pieces without the separator that join back to the string |
| PyStr.RSplitOnce | emojifs/slack.py:186 | `rsplit(sep, 1)` cuts at the last separator when there is one |
| PyStr.Before | emojifs/discord.py:137 | `split(sep)[0]` is the longest prefix without the separator |
| PyStr.AfterLeading | emojifs/slack.py:190 | `split(pat)[1]` of a string starting with `pat` runs up to the next occurrence of `pat` |
| PyDict.FromPairs | emojifs/slack.py:167 | A dict comprehension is a dict without repeated keys whose keys are exactly the listed keys |
| PyDict.FromPairsKeepsLast | emojifs/discord.py:96 | A key's value in the comprehension is the last value listed for it |
| PyDict.Put | emojifs/discord.py:103 | Assigning a key yields a dict in which the key maps to the new value and every other key is unchanged |
| Lex.Sort | emojifs/muxer.py:43 | `sorted` returns a sorted permutation, distinct when its input was |
| Lex.BisectRight | emojifs/muxer.py:62 | `bisect_right` splits a sorted list into the elements at most `x` and those greater than `x` |
| Lex.Sandwich | emojifs/muxer.py:65-66 | Anything sorting between a string and one of its extensions also extends it |

## Left out

- Timestamps, `st_uid` and `st_gid` in `getattr` answers are not modelled. They come from the clock and the operating system.
- The cache expiry and size limits (`TTLCache`, `LRUCache`) are not modelled. A cache is either present or absent, and any expiry looks like an invalidation.
- The sleeping before a request that respects a recorded retry time is not modelled. Time is not part of the model.
- Http.SlackRequest: the retry time is an abstract number. It is not `time.time()` plus the header's text. Adding that text to a float raises `TypeError` in the source when the header is present (`emojifs/slack.py:105`).
- Http.DiscordSend: the same simplification for `X-RateLimit-Reset-After` (`emojifs/discord.py:80`). The corrected request treats the header as the number of seconds it announces; the as-written Http.DiscordRequestAsWritten keeps the `TypeError`.
- Slack's `real_sizes` switch and the fixed 256 KiB size it reports when off are not modelled. The model follows the default.
- Utils.DataSize: the model divides exactly, where Python divides in floating point. A quarter of an integer is exact in a double below 2^53, so the two differ only for payloads longer than that.
- Utils.EmojiBytes: `base64.b64decode` is a parameter. Its decoding rules are not modelled.
- xattr values are modelled as strings. Their UTF-8 encoding to bytes is not.
- `enumerate_tokens`, the backends' `__init__` (session, token lookup, logging in), `__str__`/`__repr__`, the command-line entry point and the FUSE mount are out of scope. They are all I/O.
- Concurrency between FUSE calls is out of scope. Each call is one atomic step of the model.
- Muxer.Dispatch covers `readlink`, `read`, `open`, `unlink`, `create`, `write`, `release`, `truncate` and `symlink` together. They differ only in the operation they forward.
- Muxer.Intermediates is a list in discovery order. Python keeps a `set`, whose iteration order decides the order of `readdir` entries, so the order of listed intermediates is not modelled.
- Slack.Readdir: entries are optional strings, because an emoji whose URL is neither `http` nor `data:image/` gets no file name. The source puts `None` into the list there.
- Discord's `truncate` is not defined by the backend. It falls through to the FUSE default, so there is nothing to model.
- The HTTP transport, JSON decoding and the shape of the request bodies are not modelled. A call is recorded as the operation, the target and the payload that matter.

## Findings

| source | as written | input that shows it | evidently intended | confidence | as-written member | corrected member |
|---|---|---|---|---|---|---|
| emojifs/discord.py:74-83 | On 429 the request recurses with the full URL in place of the URL fragment, so the retry prefixes the API base a second time | a `GET` of `users/@me/guilds` answered first by a 429 without `X-RateLimit-Reset-After`, then by 200 | retry the same URL | not executed | Http.RetryDoublesBase | Http.RetriedUntilAnswered |
