/** The decorators that resolve the implicit target of a command before
    calling it: GetActivePlayer passes the id of the first active player,
    GetPlaylists the id of the playlist of a requested type. The decorated
    command is an opaque function from that id to its result. */
module Targets {
  import opened Records

  /** A decorated command, called with the resolved id. */
  type Command = Value -> Result<Value>

  // ---------------------------------------------------------------------
  // GetActivePlayer

  /** `server.Player.GetActivePlayers()[0]['playerid']` evaluated inside the
      decorator's `try`: the id, or None when the query or any step of the
      expression raised (empty list, first entry not a dict or without
      `playerid`, response not a list). */
  function ActivePlayerId(players: Result<Value>): (id: Option<Value>)
    ensures id.Some? <==>
      && players.Ok? && players.value.List? && |players.value.items| > 0
      && GetItem(players.value.items[0], "playerid").Ok?
    ensures id.Some? ==> id.value == players.value.items[0].fields["playerid"]
  {
    match players
    case Ok(List(entries)) =>
      if |entries| == 0 then None
      else
        (match GetItem(entries[0], "playerid")
         case Ok(id) => Some(id)
         case Err(_) => None)
    case _ => None
  }

  /** The GetActivePlayer decorator: `{}` when no player id could be
      resolved, otherwise the command called with it (its exceptions
      propagate: the call is outside the `try`). */
  function GetActivePlayer(players: Result<Value>, command: Command): (r: Result<Value>)
    ensures ActivePlayerId(players).None? ==> r == Ok(Obj(map[]))
    ensures ActivePlayerId(players).Some? ==> r == command(ActivePlayerId(players).value)
  {
    match ActivePlayerId(players)
    case None => Ok(Obj(map[]))
    case Some(id) => command(id)
  }

  /** With no active player, or a failed query, the result is `{}` whatever
      the command would do: the command is not consulted. */
  lemma NoActivePlayerSkipsCommand(players: Result<Value>, command: Command, other: Command)
    requires players.Err? || (players.value.List? && players.value.items == [])
    ensures GetActivePlayer(players, command) == GetActivePlayer(players, other) == Ok(Obj(map[]))
  {
  }

  /** With a well-formed first entry, the command gets that entry's id,
      whatever the later entries are. */
  lemma FirstActivePlayerWins(first: map<string, Value>, later: seq<Value>, command: Command)
    requires "playerid" in first
    ensures GetActivePlayer(Ok(List([Obj(first)] + later)), command) == command(first["playerid"])
  {
  }

  // ---------------------------------------------------------------------
  // GetPlaylists

  /** `playlist['type'] == playlistType` for an entry that has a type. */
  predicate TypeMatches(entry: Value, playlistType: Value)
  {
    entry.Obj? && "type" in entry.fields && entry.fields["type"] == playlistType
  }

  /** One iteration of the loop of the GetPlaylists decorator: `found` is
      the id bound to `playlist_id` so far (None while unbound); the result
      is the binding after `entry`, or the exception the entry raised. */
  function ScanEntry(found: Option<Value>, entry: Value, playlistType: Value): Result<Option<Value>>
  {
    match GetItem(entry, "type")
    case Err(error) => Err(error)
    case Ok(t) =>
      if t != playlistType then Ok(found)
      else
        match GetItem(entry, "playlistid")
        case Err(error) => Err(error)
        case Ok(id) => Ok(Some(id))
  }

  /** The loop of the GetPlaylists decorator over the first entries of the
      list: the binding of `playlist_id` after them, or the exception an
      entry raised. */
  function ScanPlaylists(entries: seq<Value>, playlistType: Value): Result<Option<Value>>
    decreases |entries|
  {
    if entries == [] then Ok(None)
    else
      match ScanPlaylists(entries[..|entries| - 1], playlistType)
      case Err(error) => Err(error)
      case Ok(found) => ScanEntry(found, entries[|entries| - 1], playlistType)
  }

  /** The scan after one more entry. */
  lemma ScanNext(entries: seq<Value>, i: nat, playlistType: Value)
    requires i < |entries|
    ensures var before := ScanPlaylists(entries[..i], playlistType);
      ScanPlaylists(entries[..i + 1], playlistType)
        == if before.Err? then before else ScanEntry(before.value, entries[i], playlistType)
  {
    assert entries[..i + 1][..i] == entries[..i];
  }

  /** The id the decorator passes on, or what it raises: the last match of
      the scan, UnboundLocalError when nothing matched. A response that is
      not a list is iterated as Python would. */
  function PlaylistId(playlists: Value, playlistType: Value): Result<Value>
  {
    var scanned :=
      if playlists.List? then ScanPlaylists(playlists.items, playlistType)
      else match NonListIteration(playlists)
        case None => Ok(None)
        case Some(error) => Err(error);
    match scanned
    case Err(error) => Err(error)
    case Ok(None) => Err(UnboundLocal("playlist_id"))
    case Ok(Some(id)) => Ok(id)
  }

  /** The whole decorated call: the playlist query's exception, the
      resolution's exception, or the command called with the id. */
  function PlaylistCall(response: Result<Value>, playlistType: Value, command: Command): Result<Value>
  {
    match response
    case Err(error) => Err(error)
    case Ok(playlists) =>
      match PlaylistId(playlists, playlistType)
      case Err(error) => Err(error)
      case Ok(id) => command(id)
  }

  /** A scan that raised stays raised when more entries follow. */
  lemma {:induction false} ScanErrorPersists(entries: seq<Value>, n: nat, playlistType: Value)
    requires n <= |entries| && ScanPlaylists(entries[..n], playlistType).Err?
    ensures ScanPlaylists(entries, playlistType) == ScanPlaylists(entries[..n], playlistType)
    decreases |entries| - n
  {
    if n < |entries| {
      ScanNext(entries, n, playlistType);
      ScanErrorPersists(entries, n + 1, playlistType);
    } else {
      assert entries[..n] == entries;
    }
  }

  /** An entry that raises inside the loop ends the decorated call with
      that exception: the command is not called. */
  lemma ScanFailureRaises(entries: seq<Value>, n: nat, playlistType: Value, command: Command)
    requires n <= |entries| && ScanPlaylists(entries[..n], playlistType).Err?
    ensures PlaylistCall(Ok(List(entries)), playlistType, command) == Err(ScanPlaylists(entries[..n], playlistType).error)
  {
    ScanErrorPersists(entries, n, playlistType);
  }

  /** The GetPlaylists decorator: query, loop, then call. */
  method GetPlaylists(response: Result<Value>, playlistType: Value, command: Command) returns (r: Result<Value>)
    ensures r == PlaylistCall(response, playlistType, command)
  {
    if response.Err? {
      return Err(response.error);
    }
    var playlists := response.value;
    if !playlists.List? {
      var raised := NonListIteration(playlists);
      if raised.Some? {
        return Err(raised.value);
      }
      return Err(UnboundLocal("playlist_id"));
    }
    var entries := playlists.items;
    var playlistId: Option<Value> := None;
    for i := 0 to |entries|
      invariant ScanPlaylists(entries[..i], playlistType) == Ok(playlistId)
    {
      ScanNext(entries, i, playlistType);
      var t := GetItem(entries[i], "type");
      if t.Err? {
        ScanFailureRaises(entries, i + 1, playlistType, command);
        return Err(t.error);
      }
      if t.value == playlistType {
        var id := GetItem(entries[i], "playlistid");
        if id.Err? {
          ScanFailureRaises(entries, i + 1, playlistType, command);
          return Err(id.error);
        }
        playlistId := Some(id.value);
      }
    }
    assert entries[..|entries|] == entries;
    if playlistId.None? {
      return Err(UnboundLocal("playlist_id"));
    }
    r := command(playlistId.value);
  }

  /** Every entry has a `type`, and every entry of the requested type has a
      `playlistid`: the shape on which the scan cannot raise. */
  ghost predicate WellFormedPlaylists(entries: seq<Value>, playlistType: Value)
  {
    forall j :: 0 <= j < |entries| ==>
      GetItem(entries[j], "type").Ok? && (TypeMatches(entries[j], playlistType) ==> "playlistid" in entries[j].fields)
  }

  /** `k` is the last entry of the requested type. */
  ghost predicate IsLastMatch(entries: seq<Value>, playlistType: Value, k: int)
  {
    && 0 <= k < |entries| && TypeMatches(entries[k], playlistType)
    && forall j :: k < j < |entries| ==> !TypeMatches(entries[j], playlistType)
  }

  /** The scan raises exactly on a malformed list. */
  lemma {:induction false} ScanSucceedsIffWellFormed(entries: seq<Value>, playlistType: Value)
    ensures ScanPlaylists(entries, playlistType).Ok? <==> WellFormedPlaylists(entries, playlistType)
    decreases |entries|
  {
    if entries != [] {
      var prefix := entries[..|entries| - 1];
      ScanSucceedsIffWellFormed(prefix, playlistType);
      assert forall j :: 0 <= j < |prefix| ==> prefix[j] == entries[j];
    }
  }

  /** On a well-formed list the scan leaves `playlist_id` unbound exactly
      when no entry has the requested type. */
  lemma {:induction false} ScanUnboundIffNoMatch(entries: seq<Value>, playlistType: Value)
    requires WellFormedPlaylists(entries, playlistType)
    ensures ScanPlaylists(entries, playlistType) == Ok(None) <==>
      forall j :: 0 <= j < |entries| ==> !TypeMatches(entries[j], playlistType)
    decreases |entries|
  {
    if entries != [] {
      var prefix := entries[..|entries| - 1];
      assert forall j :: 0 <= j < |prefix| ==> prefix[j] == entries[j];
      assert WellFormedPlaylists(prefix, playlistType);
      ScanUnboundIffNoMatch(prefix, playlistType);
      ScanSucceedsIffWellFormed(prefix, playlistType);
    }
  }

  /** On a well-formed list the scan ends with the id of the last entry of
      the requested type. */
  lemma {:induction false} ScanFindsLastMatch(entries: seq<Value>, playlistType: Value, k: int)
    requires WellFormedPlaylists(entries, playlistType) && IsLastMatch(entries, playlistType, k)
    ensures ScanPlaylists(entries, playlistType) == Ok(Some(entries[k].fields["playlistid"]))
    decreases |entries|
  {
    var n := |entries| - 1;
    var prefix := entries[..n];
    assert forall j :: 0 <= j < n ==> prefix[j] == entries[j];
    assert WellFormedPlaylists(prefix, playlistType);
    ScanSucceedsIffWellFormed(prefix, playlistType);
    if k < n {
      assert IsLastMatch(prefix, playlistType, k);
      ScanFindsLastMatch(prefix, playlistType, k);
    }
  }

  /** GetPlaylists on a well-formed list with no entry of the requested type
      raises UnboundLocalError and never calls the command. */
  lemma NoMatchingPlaylistRaises(entries: seq<Value>, playlistType: Value, command: Command)
    requires WellFormedPlaylists(entries, playlistType)
    requires forall j :: 0 <= j < |entries| ==> !TypeMatches(entries[j], playlistType)
    ensures PlaylistCall(Ok(List(entries)), playlistType, command) == Err(UnboundLocal("playlist_id"))
  {
    ScanUnboundIffNoMatch(entries, playlistType);
  }

  /** GetPlaylists on a well-formed list calls the command with the id of the
      last entry of the requested type. */
  lemma LastMatchingPlaylistWins(entries: seq<Value>, playlistType: Value, command: Command, k: int)
    requires WellFormedPlaylists(entries, playlistType) && IsLastMatch(entries, playlistType, k)
    ensures PlaylistCall(Ok(List(entries)), playlistType, command) == command(entries[k].fields["playlistid"])
  {
    ScanFindsLastMatch(entries, playlistType, k);
  }
}
