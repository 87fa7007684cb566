/** The list commands (VideoLibrary_GetMovies,
    VideoLibrary_GetRecentlyAddedMovies, Playlist_GetItems and
    Favourites_GetFavourites): take the list under one key of the server's
    response, or `[]` when the response has no such key, and post-process
    the records in place before returning them. */
module ListCommands {
  import opened Records
  import opened FileStore
  import T = Thumbnails
  import R = ResumePercent

  /** The commands that fall back to `[]`. */
  datatype ListCommand = GetMovies | GetRecentlyAddedMovies | PlaylistGetItems | GetFavourites
  {
    /** The key of the response that holds the records. */
    function Key(): string
    {
      match this
      case GetMovies => "movies"
      case GetRecentlyAddedMovies => "movies"
      case PlaylistGetItems => "items"
      case GetFavourites => "favourites"
    }

    /** Whether GetResumePercent runs after ProcessThumbnails. */
    predicate NormalizesResume()
    {
      this == GetMovies
    }
  }

  /** What a list command returns (or raises) and the filesystem it leaves. */
  datatype Reply = Reply(result: Result<Value>, disk: Disk)

  /** A list command given the server's response to its query. Only a
      KeyError of the lookup is caught; a response that is not a dict
      raises TypeError, an exception of the query itself propagates. */
  function ListReply(remote: T.Remote, disk: Disk, command: ListCommand, response: Result<Value>): (r: Reply)
    requires disk.Valid()
    ensures r.disk.Valid() && Grows(disk, r.disk)
    ensures response.Err? ==> r == Reply(response, disk)
    ensures response.Ok? && !response.value.Obj? ==> r == Reply(Err(TypeError), disk)
    ensures response.Ok? && response.value.Obj? && command.Key() !in response.value.fields ==>
      r == Reply(Ok(List([])), disk)
  {
    match response
    case Err(error) => Reply(Err(error), disk)
    case Ok(body) =>
      match GetItem(body, command.Key())
      case Err(KeyError(_)) => Reply(Ok(List([])), disk)
      case Err(error) => Reply(Err(error), disk)
      case Ok(records) =>
        if !records.List? then
          // both loops iterate a value that is not a list; the first one decides
          match NonListIteration(records)
          case None => Reply(Ok(records), disk)
          case Some(error) => Reply(Err(error), disk)
        else
          var processed := T.ProcessEffect(remote, disk, records.items, T.CacheDir);
          T.ProcessOnlyGrows(remote, disk, records.items, T.CacheDir);
          if processed.outcome.Raised? then Reply(Err(processed.outcome.error), processed.disk)
          else if !command.NormalizesResume() then Reply(Ok(List(processed.items)), processed.disk)
          else
            var normalized := R.NormalizeAll(processed.items, R.Unbound);
            if normalized.outcome.Raised? then Reply(Err(normalized.outcome.error), processed.disk)
            else Reply(Ok(List(normalized.items)), processed.disk)
  }

  /** Rewriting the thumbnail does not touch the fields GetResumePercent
      reads. */
  lemma RewrittenKeepsWellFormed(remote: T.Remote, item: Value)
    requires T.Rewritable(item) && R.WellFormed(item)
    ensures R.WellFormed(T.Rewritten(remote, item))
  {
    var fields := T.Rewritten(remote, item).fields;
    assert forall k :: k != "thumbnail" && k in item.fields ==> k in fields && fields[k] == item.fields[k];
  }

  /** A list command that returns records has rewritten every record's
      thumbnail. GetMovies has also given each of them `resume.percentage`,
      changing no top-level field other than `resume`; a well-formed record
      gets exactly the percentage its own `resume` or counters give, with
      `resume`'s other keys kept. */
  lemma ReturnedRecordsAreProcessed(remote: T.Remote, disk: Disk, command: ListCommand, body: map<string, Value>)
    requires disk.Valid() && command.Key() in body && body[command.Key()].List?
    ensures var records := body[command.Key()].items;
      var r := ListReply(remote, disk, command, Ok(Obj(body)));
      r.result.Ok? ==>
        && r.result.value.List? && |r.result.value.items| == |records|
        && forall j :: 0 <= j < |records| ==>
          && T.Rewritable(records[j])
          && var out := r.result.value.items[j];
             var rewritten := T.Rewritten(remote, records[j]);
             if command.NormalizesResume() then
               && R.Completed(rewritten, out)
               && (R.WellFormed(records[j]) ==> R.WellFormed(rewritten) && out == R.WithPercentage(rewritten))
             else out == rewritten
  {
    var records := body[command.Key()].items;
    var processed := T.ProcessEffect(remote, disk, records, T.CacheDir);
    T.ProcessRewritesPrefix(remote, disk, records, T.CacheDir);
    R.NormalizeAllCompletes(processed.items, R.Unbound);
    R.NormalizeAllWellFormedRecords(processed.items, R.Unbound);
    if processed.outcome.Done? {
      var k :| T.RewrittenUpTo(remote, records, processed.items, k) && k == |records|;
      forall j | 0 <= j < |records| && R.WellFormed(records[j])
        ensures R.WellFormed(processed.items[j])
      {
        RewrittenKeepsWellFormed(remote, records[j]);
      }
    }
  }

  /** The returned records are served from the cache: after a list command
      returns, every non-empty identifier in it names a file on disk. */
  lemma ReturnedThumbnailsAreCached(remote: T.Remote, disk: Disk, command: ListCommand, body: map<string, Value>)
    requires disk.Valid() && command.Key() in body && body[command.Key()].List?
    ensures var records := body[command.Key()].items;
      var r := ListReply(remote, disk, command, Ok(Obj(body)));
      r.result.Ok? ==>
        forall j ::
          (0 <= j < |records| && T.Rewritable(records[j]) && T.ThumbnailId(remote, records[j].fields["thumbnail"].s) != "") ==>
            r.disk.Exists(T.CachePath(remote, T.CacheDir, records[j].fields["thumbnail"].s))
  {
    T.ProcessCachesEveryId(remote, disk, body[command.Key()].items, T.CacheDir);
  }

  /** A list command, step by step: the records are copied into a fresh
      array and post-processed there in place. */
  method RunListCommand(fs: FileSystem, remote: T.Remote, command: ListCommand, response: Result<Value>)
    returns (r: Result<Value>)
    requires fs.Valid()
    modifies fs
    ensures fs.Valid()
    ensures r == ListReply(remote, old(fs.Current()), command, response).result
    ensures fs.Current() == ListReply(remote, old(fs.Current()), command, response).disk
  {
    if response.Err? {
      return Err(response.error);
    }
    var found := GetItem(response.value, command.Key());
    if found.Err? {
      if found.error.KeyError? {
        return Ok(List([]));
      }
      return Err(found.error);
    }
    var records := found.value;
    if !records.List? {
      var raised := NonListIteration(records);
      if raised.Some? {
        return Err(raised.value);
      }
      return Ok(records);
    }
    var items := new Value[|records.items|](i requires 0 <= i < |records.items| => records.items[i]);
    assert items[..] == records.items;
    var processed := T.ProcessThumbnails(fs, remote, items);
    if processed.Raised? {
      return Err(processed.error);
    }
    if command.NormalizesResume() {
      var normalized := R.GetResumePercent(items);
      if normalized.Raised? {
        return Err(normalized.error);
      }
    }
    return Ok(List(items[..]));
  }
}
