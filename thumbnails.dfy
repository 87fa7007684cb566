/** The thumbnail cache: GetThumbnail rewrites a server thumbnail reference
    into the md5 hex digest of the reference and materialises the image as
    the file `cacheDir/digest` on first use; ProcessThumbnails applies it to
    the `thumbnail` field of every record of a list, in place and in order. */
module Thumbnails {
  import opened Records
  import opened FileStore

  predicate IsHexDigit(c: char)
  {
    '0' <= c <= '9' || 'a' <= c <= 'f'
  }

  /** A lower-case hex digit. */
  type HexDigit = c: char | IsHexDigit(c) witness '0'

  /** What `hashlib.md5(...).hexdigest()` returns: 32 lower-case hex digits. */
  type Digest = s: seq<HexDigit> | |s| == 32
    witness "00000000000000000000000000000000"

  /** The result of `requests.get(url, stream=True)` and the streaming copy:
      the request raised before any byte arrived, or a body was streamed,
      possibly cut short by an exception after the bytes in `body`. */
  datatype Download = Refused(error: PyError) | Streamed(body: Bytes, interrupted: Option<PyError>)

  /** The collaborators of the cache that this model does not look into:
      the server's base URL, `urllib.parse.quote_plus`, md5 and the HTTP
      download. */
  datatype Remote = Remote(
    url: string,
    quotePlus: string -> string,
    md5Hex: string -> Digest,
    fetch: string -> Download)

  /** `re.findall(r'.jpg', s)` finds a match at `i`: an unescaped `.` is any
      character except a newline, so this is "jpg" preceded by one such
      character, not a file-extension test. */
  predicate DotJpgAt(s: string, i: int)
  {
    1 <= i <= |s| - 3 && s[i - 1] != '\n' && s[i..i + 3] == "jpg"
  }

  /** `re.findall(r'.jpg', s)` is non-empty. */
  predicate MatchesDotJpg(s: string)
  {
    exists i :: 1 <= i <= |s| - 3 && DotJpgAt(s, i)
  }

  /** The identifier GetThumbnail hands back for a string reference when it
      does not raise; it depends on the reference alone. */
  function ThumbnailId(remote: Remote, reference: string): string
  {
    if MatchesDotJpg(reference) then remote.md5Hex(reference) else ""
  }

  /** Where the image of `reference` is cached. */
  function CachePath(remote: Remote, cacheDir: Path, reference: string): Path
  {
    Join(cacheDir, remote.md5Hex(reference))
  }

  /** The URL the image is fetched from: `server.url + 'image/' + quote_plus(reference)`. */
  function ImageUrl(remote: Remote, reference: string): string
  {
    remote.url + "image/" + remote.quotePlus(reference)
  }

  /** What one call of GetThumbnail returns (or raises) and the filesystem it leaves. */
  datatype Effect = Effect(outcome: Result<string>, disk: Disk)

  /** GetThumbnail(server, thumbnail, cacheDir) on the filesystem `disk`. */
  function ThumbnailEffect(remote: Remote, disk: Disk, thumbnail: Value, cacheDir: Path): (e: Effect)
    requires disk.Valid()
    ensures e.disk.Valid()
  {
    if !thumbnail.Str? then Effect(Err(TypeError), disk)
    else if !MatchesDotJpg(thumbnail.s) then Effect(Ok(""), disk)
    else
      var digest := remote.md5Hex(thumbnail.s);
      var imgPath := Join(cacheDir, digest);
      if disk.Exists(imgPath) then Effect(Ok(digest), disk)
      else
        var made := if disk.Exists(cacheDir) then Ok(disk) else disk.Mkdir(cacheDir);
        if made.Err? then Effect(Err(made.error), disk)
        else if !made.value.IsDir(cacheDir) then Effect(Err(CacheDirNotADirectory), made.value)
        else
          match remote.fetch(ImageUrl(remote, thumbnail.s))
          case Refused(error) => Effect(Err(error), made.value)
          case Streamed(body, interrupted) =>
            var written := made.value.Write(imgPath, body);
            if interrupted.Some? then Effect(Err(interrupted.value), written)
            else Effect(Ok(digest), written)
  }

  /** What any call of GetThumbnail guarantees: it only adds to the
      filesystem; the identifier it returns depends on the reference alone;
      it returns "" exactly for a string that fails the gate, and then
      touches nothing; a non-empty identifier names a cache entry that
      exists afterwards. */
  lemma ThumbnailContract(remote: Remote, disk: Disk, thumbnail: Value, cacheDir: Path)
    requires disk.Valid()
    ensures var e := ThumbnailEffect(remote, disk, thumbnail, cacheDir);
      && Grows(disk, e.disk)
      && (e.outcome.Ok? ==> thumbnail.Str? && e.outcome.value == ThumbnailId(remote, thumbnail.s))
      && (e.outcome == Ok("") <==> thumbnail.Str? && !MatchesDotJpg(thumbnail.s))
      && (e.outcome == Ok("") ==> e.disk == disk)
      && (e.outcome.Ok? && e.outcome.value != "" ==> e.disk.Exists(CachePath(remote, cacheDir, thumbnail.s)))
  {
  }

  /** GetThumbnail, step by step on the filesystem. */
  method GetThumbnail(fs: FileSystem, remote: Remote, thumbnail: Value, cacheDir: Path) returns (r: Result<string>)
    requires fs.Valid()
    modifies fs
    ensures fs.Valid()
    ensures r == ThumbnailEffect(remote, old(fs.Current()), thumbnail, cacheDir).outcome
    ensures fs.Current() == ThumbnailEffect(remote, old(fs.Current()), thumbnail, cacheDir).disk
  {
    if !thumbnail.Str? {
      return Err(TypeError);
    }
    if !MatchesDotJpg(thumbnail.s) {
      return Ok("");
    }
    var digest := remote.md5Hex(thumbnail.s);
    var imgPath := Join(cacheDir, digest);
    if !fs.Current().Exists(imgPath) {
      if !fs.Current().Exists(cacheDir) {
        var made := fs.Mkdir(cacheDir);
        if made.Raised? {
          return Err(made.error);
        }
      }
      if !fs.Current().IsDir(cacheDir) {
        return Err(CacheDirNotADirectory);
      }
      var response := remote.fetch(ImageUrl(remote, thumbnail.s));
      if response.Refused? {
        return Err(response.error);
      }
      fs.WriteFile(imgPath, response.body);
      if response.interrupted.Some? {
        return Err(response.interrupted.value);
      }
    }
    return Ok(digest);
  }

  /** Two remotes that hash alike; they may fetch different bytes. */
  ghost predicate SameHash(r1: Remote, r2: Remote)
  {
    forall s :: r1.md5Hex(s) == r2.md5Hex(s)
  }

  /** A hit (a file or directory already at `cacheDir/digest`) returns the
      digest, changes nothing and downloads nothing: the result is the same
      whatever the network would have returned. */
  lemma CacheHitIsInert(remote: Remote, other: Remote, disk: Disk, reference: string, cacheDir: Path)
    requires disk.Valid() && SameHash(remote, other)
    requires MatchesDotJpg(reference) && disk.Exists(CachePath(remote, cacheDir, reference))
    ensures ThumbnailEffect(remote, disk, Str(reference), cacheDir) == Effect(Ok(remote.md5Hex(reference)), disk)
    ensures ThumbnailEffect(other, disk, Str(reference), cacheDir) == ThumbnailEffect(remote, disk, Str(reference), cacheDir)
  {
    assert other.md5Hex(reference) == remote.md5Hex(reference);
  }

  /** A miss whose download completes creates the cache directory if it was
      absent and stores the downloaded bytes under the digest; nothing else
      changes. */
  lemma CacheMissStoresDownload(remote: Remote, disk: Disk, reference: string, cacheDir: Path, body: Bytes)
    requires disk.Valid() && MatchesDotJpg(reference)
    requires !disk.Exists(CachePath(remote, cacheDir, reference))
    requires disk.IsDir(cacheDir) || disk.Mkdir(cacheDir).Ok?
    requires remote.fetch(ImageUrl(remote, reference)) == Streamed(body, None)
    ensures ThumbnailEffect(remote, disk, Str(reference), cacheDir)
      == Effect(Ok(remote.md5Hex(reference)),
                Disk(disk.dirs + {cacheDir}, disk.files[CachePath(remote, cacheDir, reference) := body]))
  {
    if !disk.IsDir(cacheDir) {
      assert !disk.Exists(cacheDir);
    }
  }

  /** On a miss where `cacheDir` exists but is a file, GetThumbnail raises
      before any download or write: the result does not depend on the
      network and the filesystem is unchanged. */
  lemma NotADirectoryRaisesBeforeDownload(remote: Remote, other: Remote, disk: Disk, reference: string, cacheDir: Path)
    requires disk.Valid() && SameHash(remote, other) && MatchesDotJpg(reference)
    requires !disk.Exists(CachePath(remote, cacheDir, reference))
    requires cacheDir in disk.files
    ensures ThumbnailEffect(remote, disk, Str(reference), cacheDir) == Effect(Err(CacheDirNotADirectory), disk)
    ensures ThumbnailEffect(other, disk, Str(reference), cacheDir) == ThumbnailEffect(remote, disk, Str(reference), cacheDir)
  {
    assert other.md5Hex(reference) == remote.md5Hex(reference);
  }

  /** Content addressing: two calls on the same reference that both return
      give the same identifier, whatever either cache held, whichever cache
      directory was used and whatever the network returned. */
  lemma IdentifierIgnoresCacheState(remote: Remote, other: Remote, d1: Disk, d2: Disk, reference: Value, dir1: Path, dir2: Path)
    requires d1.Valid() && d2.Valid() && SameHash(remote, other)
    requires ThumbnailEffect(remote, d1, reference, dir1).outcome.Ok?
    requires ThumbnailEffect(other, d2, reference, dir2).outcome.Ok?
    ensures ThumbnailEffect(remote, d1, reference, dir1).outcome == ThumbnailEffect(other, d2, reference, dir2).outcome
  {
    assert other.md5Hex(reference.s) == remote.md5Hex(reference.s);
  }

  /** Idempotence: once a call has returned, a second call for the same
      reference is a hit that returns the same identifier and leaves the
      filesystem as the first call left it, without any download. */
  lemma SecondCallIsHit(remote: Remote, other: Remote, disk: Disk, reference: Value, cacheDir: Path)
    requires disk.Valid() && SameHash(remote, other)
    requires ThumbnailEffect(remote, disk, reference, cacheDir).outcome.Ok?
    ensures var first := ThumbnailEffect(remote, disk, reference, cacheDir);
      ThumbnailEffect(other, first.disk, reference, cacheDir) == first
  {
    var first := ThumbnailEffect(remote, disk, reference, cacheDir);
    if first.outcome.value != "" {
      assert other.md5Hex(reference.s) == remote.md5Hex(reference.s);
      CacheHitIsInert(remote, other, first.disk, reference.s, cacheDir);
    }
  }

  /** A download cut short leaves its partial body under the digest, and the
      next call for the same reference is a hit on it: it returns the digest
      and the truncated bytes stay in the cache. */
  lemma InterruptedDownloadIsServedLater(remote: Remote, disk: Disk, reference: string, cacheDir: Path, body: Bytes, error: PyError)
    requires disk.Valid() && MatchesDotJpg(reference)
    requires !disk.Exists(CachePath(remote, cacheDir, reference)) && disk.IsDir(cacheDir)
    requires remote.fetch(ImageUrl(remote, reference)) == Streamed(body, Some(error))
    ensures var first := ThumbnailEffect(remote, disk, Str(reference), cacheDir);
      && first.outcome == Err(error)
      && first.disk.files[CachePath(remote, cacheDir, reference)] == body
      && ThumbnailEffect(remote, first.disk, Str(reference), cacheDir) == Effect(Ok(remote.md5Hex(reference)), first.disk)
  {
  }

  /** The gate on concrete references: a ".jpg" suffix passes, but so does
      "jpg" anywhere after the first character, while an upper-case
      extension, a leading "jpg" or a newline before it does not. */
  lemma GateIsNotAnExtensionTest()
    ensures MatchesDotJpg("poster.jpg")
    ensures MatchesDotJpg("ajpg.png")
    ensures !MatchesDotJpg("jpg")
    ensures !MatchesDotJpg("poster.JPG")
    ensures !MatchesDotJpg("\njpg")
  {
    assert DotJpgAt("poster.jpg", 7);
    assert DotJpgAt("ajpg.png", 1);
    var upper := "poster.JPG";
    forall i | 1 <= i <= |upper| - 3
      ensures !DotJpgAt(upper, i)
    {
      assert upper[i..i + 3][0] == upper[i];
    }
  }

  /** A digest never passes the gate: hex digits contain no 'j'. */
  lemma DigestFailsGate(d: Digest)
    ensures !MatchesDotJpg(d)
  {
    forall i | 1 <= i <= |d| - 3
      ensures !DotJpgAt(d, i)
    {
      assert d[i..i + 3][0] == d[i];
    }
  }

  // ---------------------------------------------------------------------
  // ProcessThumbnails

  /** What ProcessThumbnails leaves: how it ended, the records, the filesystem. */
  datatype BatchEffect = BatchEffect(outcome: Outcome, items: seq<Value>, disk: Disk)

  /** A record whose thumbnail GetThumbnail can rewrite. */
  predicate Rewritable(item: Value)
  {
    item.Obj? && "thumbnail" in item.fields && item.fields["thumbnail"].Str?
  }

  /** The record with its thumbnail replaced by the cache identifier. */
  function Rewritten(remote: Remote, item: Value): Value
    requires Rewritable(item)
  {
    Obj(item.fields["thumbnail" := Str(ThumbnailId(remote, item.fields["thumbnail"].s))])
  }

  /** One iteration of ProcessThumbnails: the rewritten record, or the
      exception raised, and the filesystem afterwards. */
  datatype ItemEffect = ItemEffect(outcome: Result<Value>, disk: Disk)

  /** `item['thumbnail'] = GetThumbnail(server, item['thumbnail'], cacheDir)` */
  function RewriteEffect(remote: Remote, disk: Disk, item: Value, cacheDir: Path): (e: ItemEffect)
    requires disk.Valid()
    ensures e.disk.Valid()
  {
    match GetItem(item, "thumbnail")
    case Err(error) => ItemEffect(Err(error), disk)
    case Ok(thumbnail) =>
      var t := ThumbnailEffect(remote, disk, thumbnail, cacheDir);
      if t.outcome.Err? then ItemEffect(Err(t.outcome.error), t.disk)
      else ItemEffect(Ok(Obj(item.fields["thumbnail" := Str(t.outcome.value)])), t.disk)
  }

  /** ProcessThumbnails over `items`, starting from `disk`. A record without a
      `thumbnail` key, or a call that raises, stops the loop: the records
      before it are rewritten, it and the rest are untouched. */
  function ProcessEffect(remote: Remote, disk: Disk, items: seq<Value>, cacheDir: Path): (e: BatchEffect)
    requires disk.Valid()
    ensures e.disk.Valid()
    ensures |e.items| == |items|
    decreases |items|
  {
    if items == [] then BatchEffect(Done, [], disk)
    else
      var r := RewriteEffect(remote, disk, items[0], cacheDir);
      if r.outcome.Err? then BatchEffect(Raised(r.outcome.error), items, r.disk)
      else
        var rest := ProcessEffect(remote, r.disk, items[1..], cacheDir);
        BatchEffect(rest.outcome, [r.outcome.value] + rest.items, rest.disk)
  }

  /** `e` with the records `done` put in front of its records. */
  function Prepend(done: seq<Value>, e: BatchEffect): BatchEffect
  {
    BatchEffect(e.outcome, done + e.items, e.disk)
  }

  lemma PrependTwice(a: seq<Value>, b: seq<Value>, e: BatchEffect)
    ensures Prepend(a, Prepend(b, e)) == Prepend(a + b, e)
  {
    assert a + (b + e.items) == (a + b) + e.items;
  }

  /** ProcessEffect after its first record. */
  lemma ProcessStep(remote: Remote, disk: Disk, items: seq<Value>, cacheDir: Path)
    requires disk.Valid() && items != []
    ensures var r := RewriteEffect(remote, disk, items[0], cacheDir);
      ProcessEffect(remote, disk, items, cacheDir)
        == if r.outcome.Err? then BatchEffect(Raised(r.outcome.error), items, r.disk)
           else Prepend([r.outcome.value], ProcessEffect(remote, r.disk, items[1..], cacheDir))
  {
  }

  /** The first `k` records of `items` are rewritten in `out`, the others unchanged. */
  ghost predicate RewrittenUpTo(remote: Remote, items: seq<Value>, out: seq<Value>, k: int)
  {
    && |out| == |items| && 0 <= k <= |items|
    && (forall j :: 0 <= j < k ==> Rewritable(items[j]) && out[j] == Rewritten(remote, items[j]))
    && out[k..] == items[k..]
  }

  /** `e` rewrote some prefix of `items` and left the rest unchanged; the
      prefix is the whole list exactly when `e` ended normally. */
  ghost predicate PrefixRewritten(remote: Remote, items: seq<Value>, e: BatchEffect)
  {
    exists k :: RewrittenUpTo(remote, items, e.items, k) && (e.outcome == Done <==> k == |items|)
  }

  /** One iteration only adds to the filesystem; when it does not raise it
      has rewritten the record, and a non-empty identifier is cached. */
  lemma RewriteContract(remote: Remote, disk: Disk, item: Value, cacheDir: Path)
    requires disk.Valid()
    ensures var r := RewriteEffect(remote, disk, item, cacheDir);
      && Grows(disk, r.disk)
      && (r.outcome.Ok? ==> Rewritable(item) && r.outcome.value == Rewritten(remote, item))
      && (r.outcome.Ok? && ThumbnailId(remote, item.fields["thumbnail"].s) != "" ==>
            r.disk.Exists(CachePath(remote, cacheDir, item.fields["thumbnail"].s)))
  {
    if GetItem(item, "thumbnail").Ok? {
      ThumbnailContract(remote, disk, item.fields["thumbnail"], cacheDir);
    }
  }

  /** Rewriting one more record in front extends the rewritten prefix. */
  lemma RewrittenUpToCons(remote: Remote, items: seq<Value>, rest: seq<Value>, k: int)
    requires items != [] && Rewritable(items[0]) && RewrittenUpTo(remote, items[1..], rest, k)
    ensures RewrittenUpTo(remote, items, [Rewritten(remote, items[0])] + rest, k + 1)
  {
    var out := [Rewritten(remote, items[0])] + rest;
    forall j | 0 <= j < k + 1
      ensures Rewritable(items[j]) && out[j] == Rewritten(remote, items[j])
    {
      if j > 0 {
        assert items[j] == items[1..][j - 1];
      }
    }
    assert out[k + 1..] == rest[k..];
    assert items[k + 1..] == items[1..][k..];
  }

  /** ProcessThumbnails rewrites a prefix of the list, in list order, with
      identifiers that depend on each record's old thumbnail alone; it has
      rewritten the whole list exactly when it returns normally. Every
      other field of every record is unchanged. */
  lemma {:induction false} ProcessRewritesPrefix(remote: Remote, disk: Disk, items: seq<Value>, cacheDir: Path)
    requires disk.Valid()
    ensures PrefixRewritten(remote, items, ProcessEffect(remote, disk, items, cacheDir))
    decreases |items|
  {
    var e := ProcessEffect(remote, disk, items, cacheDir);
    if items == [] {
      assert RewrittenUpTo(remote, items, e.items, 0);
    } else {
      var r := RewriteEffect(remote, disk, items[0], cacheDir);
      ProcessStep(remote, disk, items, cacheDir);
      if r.outcome.Err? {
        assert RewrittenUpTo(remote, items, e.items, 0);
      } else {
        var rest := ProcessEffect(remote, r.disk, items[1..], cacheDir);
        RewriteContract(remote, disk, items[0], cacheDir);
        ProcessRewritesPrefix(remote, r.disk, items[1..], cacheDir);
        var k :| RewrittenUpTo(remote, items[1..], rest.items, k) && (rest.outcome == Done <==> k == |items| - 1);
        RewrittenUpToCons(remote, items, rest.items, k);
      }
    }
  }

  /** ProcessThumbnails only adds to the filesystem: every directory and
      every file it started with is still there, with the same contents. */
  lemma {:induction false} ProcessOnlyGrows(remote: Remote, disk: Disk, items: seq<Value>, cacheDir: Path)
    requires disk.Valid()
    ensures Grows(disk, ProcessEffect(remote, disk, items, cacheDir).disk)
    decreases |items|
  {
    if items != [] {
      var r := RewriteEffect(remote, disk, items[0], cacheDir);
      RewriteContract(remote, disk, items[0], cacheDir);
      if r.outcome.Ok? {
        ProcessOnlyGrows(remote, r.disk, items[1..], cacheDir);
      }
    }
  }

  /** After ProcessThumbnails returns normally, every non-empty identifier it
      wrote into a record names a cache entry present on disk. */
  lemma {:induction false} ProcessCachesEveryId(remote: Remote, disk: Disk, items: seq<Value>, cacheDir: Path)
    requires disk.Valid()
    ensures var e := ProcessEffect(remote, disk, items, cacheDir);
      e.outcome == Done ==>
        forall j :: 0 <= j < |items| && Rewritable(items[j]) && ThumbnailId(remote, items[j].fields["thumbnail"].s) != "" ==>
          e.disk.Exists(CachePath(remote, cacheDir, items[j].fields["thumbnail"].s))
    decreases |items|
  {
    var e := ProcessEffect(remote, disk, items, cacheDir);
    if items != [] && e.outcome == Done {
      var r := RewriteEffect(remote, disk, items[0], cacheDir);
      ProcessStep(remote, disk, items, cacheDir);
      RewriteContract(remote, disk, items[0], cacheDir);
      ProcessOnlyGrows(remote, r.disk, items[1..], cacheDir);
      ProcessCachesEveryId(remote, r.disk, items[1..], cacheDir);
      forall j | 0 <= j < |items| && Rewritable(items[j]) && ThumbnailId(remote, items[j].fields["thumbnail"].s) != ""
        ensures e.disk.Exists(CachePath(remote, cacheDir, items[j].fields["thumbnail"].s))
      {
        if j > 0 {
          assert items[j] == items[1..][j - 1];
        }
      }
    }
  }

  /** One iteration of ProcessThumbnails, on the filesystem. */
  method RewriteItem(fs: FileSystem, remote: Remote, item: Value, cacheDir: Path) returns (r: Result<Value>)
    requires fs.Valid()
    modifies fs
    ensures fs.Valid()
    ensures r == RewriteEffect(remote, old(fs.Current()), item, cacheDir).outcome
    ensures fs.Current() == RewriteEffect(remote, old(fs.Current()), item, cacheDir).disk
  {
    var thumbnail := GetItem(item, "thumbnail");
    if thumbnail.Err? {
      return Err(thumbnail.error);
    }
    var id := GetThumbnail(fs, remote, thumbnail.value, cacheDir);
    if id.Err? {
      return Err(id.error);
    }
    return Ok(Obj(item.fields["thumbnail" := Str(id.value)]));
  }

  /** Processing a record twice erases its identifier: the digest written
      by the first pass fails the gate on the second, which writes "" and
      touches nothing. */
  lemma ReprocessingErasesIdentifier(remote: Remote, disk: Disk, item: Value, cacheDir: Path)
    requires disk.Valid() && Rewritable(item)
    ensures var again := RewriteEffect(remote, disk, Rewritten(remote, item), cacheDir);
      again == ItemEffect(Ok(Obj(item.fields["thumbnail" := Str("")])), disk)
  {
    var id := ThumbnailId(remote, item.fields["thumbnail"].s);
    if id != "" {
      DigestFailsGate(remote.md5Hex(item.fields["thumbnail"].s));
    }
    assert Rewritten(remote, item).fields["thumbnail" := Str("")] == item.fields["thumbnail" := Str("")];
  }

  /** An iteration of ProcessThumbnails that raises ends the batch: the
      records from it on are untouched. */
  lemma ProcessStops(remote: Remote, whole: BatchEffect, done: seq<Value>, disk: Disk, rest: seq<Value>, cacheDir: Path)
    requires disk.Valid() && rest != []
    requires whole == Prepend(done, ProcessEffect(remote, disk, rest, cacheDir))
    requires RewriteEffect(remote, disk, rest[0], cacheDir).outcome.Err?
    ensures var r := RewriteEffect(remote, disk, rest[0], cacheDir);
      whole == BatchEffect(Raised(r.outcome.error), done + rest, r.disk)
  {
    ProcessStep(remote, disk, rest, cacheDir);
  }

  /** An iteration of ProcessThumbnails that does not raise moves its
      rewritten record into the finished prefix. */
  lemma ProcessContinues(remote: Remote, whole: BatchEffect, done: seq<Value>, disk: Disk, rest: seq<Value>, cacheDir: Path)
    requires disk.Valid() && rest != []
    requires whole == Prepend(done, ProcessEffect(remote, disk, rest, cacheDir))
    requires RewriteEffect(remote, disk, rest[0], cacheDir).outcome.Ok?
    ensures var r := RewriteEffect(remote, disk, rest[0], cacheDir);
      whole == Prepend(done + [r.outcome.value], ProcessEffect(remote, r.disk, rest[1..], cacheDir))
  {
    ProcessStep(remote, disk, rest, cacheDir);
    var r := RewriteEffect(remote, disk, rest[0], cacheDir);
    PrependTwice(done, [r.outcome.value], ProcessEffect(remote, r.disk, rest[1..], cacheDir));
  }

  /** The cache directory ProcessThumbnails passes to GetThumbnail:
      `os.path.join('static', 'cache')`, relative to the working directory. */
  const CacheDir: Path := Join("static", "cache")

  /** ProcessThumbnails, in place over the records of the list. */
  method ProcessThumbnails(fs: FileSystem, remote: Remote, items: array<Value>) returns (outcome: Outcome)
    requires fs.Valid()
    modifies fs, items
    ensures fs.Valid()
    ensures BatchEffect(outcome, items[..], fs.Current()) == ProcessEffect(remote, old(fs.Current()), old(items[..]), CacheDir)
  {
    ghost var original := items[..];
    ghost var whole := ProcessEffect(remote, fs.Current(), original, CacheDir);
    var i := 0;
    while i < items.Length
      invariant 0 <= i <= items.Length
      invariant fs.Valid()
      invariant items[i..] == original[i..]
      invariant whole == Prepend(items[..i], ProcessEffect(remote, fs.Current(), original[i..], CacheDir))
    {
      ghost var done := items[..i];
      ghost var rest := original[i..];
      assert rest[0] == items[i] && rest[1..] == original[i + 1..];
      ghost var disk := fs.Current();
      var rewritten := RewriteItem(fs, remote, items[i], CacheDir);
      if rewritten.Err? {
        ProcessStops(remote, whole, done, disk, rest, CacheDir);
        assert items[..] == done + rest;
        return Raised(rewritten.error);
      }
      ProcessContinues(remote, whole, done, disk, rest, CacheDir);
      items[i] := rewritten.value;
      assert items[..i + 1] == done + [rewritten.value];
      i := i + 1;
    }
    assert items[..] == items[..i];
    return Done;
  }
}
