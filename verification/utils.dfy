/**
 The helpers in `utils.py`: the size and the bytes of an emoji given its
 URL (an `http(s)` URL answered by a web server, or a base64 `data:` URL),
 and the `User-Agent` the program announces itself with.  The web server is
 a parameter: the outcome of the `HEAD` or `GET` request for the URL, after
 `raise_for_status`.
 */
module Utils {
  import opened Types
  import opened PyStr
  import Base64

  /**
   `(prefix, data) = url.split(',', maxsplit=1)` and the check that `prefix`
   ends in `base64`: the payload after the first comma.  A URL without a comma
   fails the two-name unpacking; both failures are a `ValueError`.
   */
  function DataPayload(url: string): (r: Result<string>)
    ensures r.Ok? <==> ',' in url && EndsWith(Before(url, ','), "base64")
    ensures r.Ok? ==> url == Before(url, ',') + "," + r.value
    ensures r.Err? ==> r.error == ValueError
  {
    var parts := SplitN(url, ',', 1);
    SplitOnceAtFirst(url, ',');
    if |parts| != 2 then Err(ValueError)
    else if !EndsWith(parts[0], "base64") then Err(ValueError)
    else Ok(parts[1])
  }

  /** Python's `int(x)` for the exact value `x = n / 4`: truncation toward zero. */
  function TruncQuarter(n: int): int {
    if n >= 0 then n / 4 else -((-n) / 4)
  }

  /**
   `int(3*len(data)/4 - padding)`, with `padding` the number of `=` among the
   last two characters: three bytes per four characters, less one byte per pad
   character.  Never negative, and within a few bytes of three quarters of the
   text.
   */
  function DataSize(data: string): (size: int)
    ensures 0 <= size && 4 * size <= 3 * |data|
    ensures 4 * size >= 3 * |data| - 11
    ensures |data| % 4 == 0 ==> size == 3 * (|data| / 4) - Count(LastN(data, 2), '=')
  {
    var padding := Count(LastN(data, 2), '=');
    TruncQuarter(3 * |data| - 4 * padding)
  }

  /**
   `get_content_length(url)`: for `http...` URLs the length the server reports
   for `HEAD` (`head`), for `data:` URLs the size computed from the payload,
   and for anything else no answer (`None`).
   */
  function ContentLength(url: string, head: Result<nat>): (r: Result<Option<int>>)
    ensures StartsWith(url, "http") ==> (r.Ok? <==> head.Ok?)
    ensures StartsWith(url, "http") && r.Ok? ==> r.value == Some(head.value)
    ensures r.Ok? && r.value.None? <==> !StartsWith(url, "http") && !StartsWith(url, "data:")
    ensures !StartsWith(url, "http") && StartsWith(url, "data:") ==>
      (r.Ok? <==> DataPayload(url).Ok?) && (r.Ok? ==> r.value == Some(DataSize(DataPayload(url).value)))
    ensures r.Ok? && r.value.Some? ==> r.value.value >= 0
  {
    if StartsWith(url, "http") then
      match head
      case Ok(n) => Ok(Some(n))
      case Err(e) => Err(e)
    else if StartsWith(url, "data:") then
      var data :- DataPayload(url);
      Ok(Some(DataSize(data)))
    else Ok(None)
  }

  /**
   `get_emoji_bytes(url)`: for `http...` URLs the body of the `GET` (`get`),
   for `data:` URLs the decoded payload (`decode` stands for
   `base64.b64decode`), and for anything else no answer.
   */
  function EmojiBytes(url: string, get: Result<seq<byte>>, decode: string -> Result<seq<byte>>): (r: Result<Option<seq<byte>>>)
    ensures StartsWith(url, "http") ==> (r.Ok? <==> get.Ok?)
    ensures StartsWith(url, "http") && r.Ok? ==> r.value == Some(get.value)
    ensures r.Ok? && r.value.None? <==> !StartsWith(url, "http") && !StartsWith(url, "data:")
    ensures !StartsWith(url, "http") && StartsWith(url, "data:") && DataPayload(url).Err? ==> r == Err(ValueError)
    ensures !StartsWith(url, "http") && StartsWith(url, "data:") && DataPayload(url).Ok? ==>
      var decoded := decode(DataPayload(url).value);
      && (decoded.Ok? ==> r == Ok(Some(decoded.value)))
      && (decoded.Err? ==> r == Err(decoded.error))
  {
    if StartsWith(url, "http") then
      match get
      case Ok(b) => Ok(Some(b))
      case Err(e) => Err(e)
    else if StartsWith(url, "data:") then
      var data :- DataPayload(url);
      var bytes :- decode(data);
      Ok(Some(bytes))
    else Ok(None)
  }

  /** The `data:` URL the program uploads for an image of the given subtype. */
  function ImageDataUrl(subtype: string, image: seq<byte>): string {
    "data:image/" + subtype + ";base64," + Base64.Encode(image)
  }

  /** The payload of such a URL is exactly the base64 text. */
  lemma PayloadOfImageDataUrl(subtype: string, image: seq<byte>)
    requires ',' !in subtype
    ensures DataPayload(ImageDataUrl(subtype, image)) == Ok(Base64.Encode(image))
  {
    var url, enc := ImageDataUrl(subtype, image), Base64.Encode(image);
    var header := "data:image/" + subtype + ";base64";
    assert url == header + [','] + enc;
    assert ',' !in header;
    BeforeFirst(url, header, enc, ',');
    assert EndsWith(header, "base64");
  }

  /** The size computed from base64 text is the number of bytes it encodes. */
  lemma DataSizeOfEncoding(image: seq<byte>)
    ensures DataSize(Base64.Encode(image)) == |image|
  {
    Base64.Padding(image);
    var n := |image|;
    var L := |Base64.Encode(image)|;
    assert 3 * L - 4 * Base64.Pad(n) == 4 * n;
  }

  lemma ImageDataUrlScheme(subtype: string, image: seq<byte>)
    ensures !StartsWith(ImageDataUrl(subtype, image), "http")
    ensures StartsWith(ImageDataUrl(subtype, image), "data:")
  {
    var url := ImageDataUrl(subtype, image);
    assert url[..5] == "data:";
    assert url[1] != "http"[1];
  }

  /** The size reported for a `data:` URL of base64 text is the size of the image it carries. */
  lemma SizeOfImageDataUrl(subtype: string, image: seq<byte>, head: Result<nat>)
    requires ',' !in subtype
    ensures ContentLength(ImageDataUrl(subtype, image), head) == Ok(Some(|image|))
  {
    PayloadOfImageDataUrl(subtype, image);
    DataSizeOfEncoding(image);
    ImageDataUrlScheme(subtype, image);
  }

  /**
   Reading a `data:` URL of base64 text, with a decoder that inverts the
   encoding, yields the image, so as many bytes as its reported size.
   */
  lemma BytesOfImageDataUrl(subtype: string, image: seq<byte>, get: Result<seq<byte>>,
                            decode: string -> Result<seq<byte>>)
    requires ',' !in subtype
    requires decode(Base64.Encode(image)) == Ok(image)
    ensures EmojiBytes(ImageDataUrl(subtype, image), get, decode) == Ok(Some(image))
  {
    PayloadOfImageDataUrl(subtype, image);
    ImageDataUrlScheme(subtype, image);
  }

  /** The `User-Agent` value that prefixes `previous` with the program's own product token. */
  function UserAgent(version: string, repository: string, previous: string): (ua: string)
    ensures StartsWith(ua, "emojifs/" + version + " ")
    ensures EndsWith(ua, ") " + previous)
  {
    var token := "emojifs/" + version + " ";
    var tail := ") " + previous;
    var middle := "(An Abomination, like Gecko) (" + repository;
    var ua := "emojifs/" + version + " (An Abomination, like Gecko) (" + repository + ") " + previous;
    assert ua == token + middle + tail;
    assert ua[..|token|] == token;
    assert ua[|ua| - |tail|..] == tail;
    ua
  }

  /**
   A `requests` header dict: each entry is filed under the lower-case form of
   its name and keeps the name as last written together with the value, so
   names are compared without regard to case.
   */
  type Headers = map<string, (string, string)>

  /** The header dict's own invariant: every entry is filed under its name's lower-case form. */
  predicate HeadersWf(h: Headers) {
    forall k :: k in h ==> k == Lower(h[k].0)
  }

  /** `headers[name]`, whatever the case of `name`; `None` where the lookup raises `KeyError`. */
  function Header(h: Headers, name: string): Option<string> {
    if Lower(name) in h then Some(h[Lower(name)].1) else None
  }

  /**
   `headers[name] = value`: a lookup of `name` in any case now finds `value`,
   every other lookup is unchanged, and the dict keeps its invariant.
   */
  function SetHeader(h: Headers, name: string, value: string): (r: Headers)
    ensures HeadersWf(h) ==> HeadersWf(r)
    ensures Header(h, name).Some? ==> r.Keys == h.Keys
    ensures forall n :: Lower(n) == Lower(name) ==> Header(r, n) == Some(value)
    ensures forall n :: Lower(n) != Lower(name) ==> Header(r, n) == Header(h, n)
  {
    var key := Lower(name);
    var r := h[key := (name, value)];
    assert HeadersWf(h) ==> HeadersWf(r) by {
      forall k | HeadersWf(h) && k in r
        ensures k == Lower(r[k].0)
      {
        if k != key {
          assert r[k] == h[k];
        }
      }
    }
    assert forall n :: Lower(n) != key ==> Header(r, n) == Header(h, n) by {
      forall n | Lower(n) != key
        ensures Header(r, n) == Header(h, n)
      {
        var l := Lower(n);
        assert l in r <==> l in h;
        if l in r {
          assert r[l] == h[l];
        }
      }
    }
    r
  }

  /**
   `set_user_agent(headers)`: reading the present `User-Agent` (in any case)
   raises `KeyError` if there is none; otherwise it is replaced by one that
   starts with the program's token and ends with the old value, and no other
   header changes.
   */
  function SetUserAgent(headers: Headers, version: string, repository: string): (r: Result<Headers>)
    requires HeadersWf(headers)
    ensures r.Err? <==> Header(headers, "User-Agent").None?
    ensures r.Err? ==> r.error == KeyError
    ensures r.Ok? ==> HeadersWf(r.value) && r.value.Keys == headers.Keys
    ensures r.Ok? ==> forall name :: Lower(name) == Lower("User-Agent") ==>
      && Header(r.value, name).Some?
      && StartsWith(Header(r.value, name).value, "emojifs/" + version + " ")
      && EndsWith(Header(r.value, name).value, ") " + Header(headers, name).value)
    ensures r.Ok? ==> forall name :: Lower(name) != Lower("User-Agent") ==> Header(r.value, name) == Header(headers, name)
  {
    match Header(headers, "User-Agent")
    case None => Err(KeyError)
    case Some(previous) =>
      assert forall name :: Lower(name) == Lower("User-Agent") ==> Header(headers, name) == Some(previous);
      Ok(SetHeader(headers, "User-Agent", UserAgent(version, repository, previous)))
  }
}
