/**
 * The randomizer registry: `!<command>` shows or hides the randomizer with that command,
 * `!<command> go` spins it, and the dashboard can show one randomizer by id or hide them
 * all. The table of randomizers is a sequence of rows; the viewers' permission cache is
 * a map from (user id, permission id) to whether the check passed, and the permission
 * check itself is an input.
 */
module Randomizer {
  import opened Wrappers
  import opened JsString

  datatype Row = Row(id: string, command: string, permissionId: string, isShown: bool)

  /** `permissions.check(userId, permissionId, false).access`. */
  type Check = (int, string) -> bool

  type Cache = map<(int, string), bool>

  /** Ids are the table's primary key. */
  predicate UniqueIds(rows: seq<Row>) {
    forall i, j :: 0 <= i < j < |rows| ==> rows[i].id != rows[j].id
  }

  /** `findOne({ command })`. */
  function FindCommand(rows: seq<Row>, command: string): (r: Option<Row>)
    ensures r.Some? ==> r.value in rows && r.value.command == command
    ensures r.None? <==> forall k :: 0 <= k < |rows| ==> rows[k].command != command
    decreases |rows|
  {
    if rows == [] then None
    else if rows[0].command == command then Some(rows[0])
    else FindCommand(rows[1..], command)
  }

  /** `update({}, { isShown: shown })`. */
  function UpdateAll(rows: seq<Row>, shown: bool): (r: seq<Row>)
    ensures |r| == |rows|
    ensures forall k :: 0 <= k < |rows| ==> r[k] == rows[k].(isShown := shown)
  {
    if rows == [] then [] else UpdateAll(rows[..|rows| - 1], shown) + [rows[|rows| - 1].(isShown := shown)]
  }

  /** `update({ id }, { isShown: shown })`. */
  function UpdateById(rows: seq<Row>, id: string, shown: bool): (r: seq<Row>)
    ensures |r| == |rows|
    ensures forall k :: 0 <= k < |rows| ==> r[k] == if rows[k].id == id then rows[k].(isShown := shown) else rows[k]
  {
    if rows == [] then []
    else
      var u := rows[|rows| - 1];
      UpdateById(rows[..|rows| - 1], id, shown) + [if u.id == id then u.(isShown := shown) else u]
  }

  /** The rows with `isShown` set, by index. */
  function ShownIndices(rows: seq<Row>): (r: set<nat>)
    ensures forall k: nat :: k in r <==> k < |rows| && rows[k].isShown
  {
    set k: nat | k < |rows| && rows[k].isShown
  }

  /** Hiding every row and then setting one id: that id, and only it, has the new flag. */
  lemma HideThenSet(rows: seq<Row>, id: string, shown: bool)
    requires UniqueIds(rows)
    ensures var r := UpdateById(UpdateAll(rows, false), id, shown);
      UniqueIds(r) && |ShownIndices(r)| <= 1
      && (forall k :: 0 <= k < |rows| ==> r[k].isShown == (shown && rows[k].id == id))
      && (forall k :: 0 <= k < |rows| ==> r[k] == rows[k].(isShown := r[k].isShown))
  {
    var r := UpdateById(UpdateAll(rows, false), id, shown);
    assert forall k :: 0 <= k < |rows| ==> r[k] == rows[k].(isShown := shown && rows[k].id == id);
    AtMostOneShown(rows, r, id);
  }

  /** Rows that keep their ids and show only the rows with id `id` show at most one row. */
  lemma AtMostOneShown(rows: seq<Row>, r: seq<Row>, id: string)
    requires UniqueIds(rows) && |r| == |rows|
    requires forall k :: 0 <= k < |rows| ==> r[k].isShown ==> rows[k].id == id
    ensures |ShownIndices(r)| <= 1
  {
    var s := ShownIndices(r);
    if s != {} {
      var k :| k in s;
      assert s == {k} by {
        assert rows[k].id == id;
        forall j | j in s ensures j == k {
          assert rows[j].id == id;
        }
      }
    }
  }

  /** Hiding every row leaves none shown. */
  lemma HideAllHides(rows: seq<Row>)
    ensures ShownIndices(UpdateAll(rows, false)) == {}
  {
  }

  /** What one chat message does: the randomizer table, the cache, and whether a spin was emitted. */
  datatype RunState = RunState(rows: seq<Row>, cache: Cache, spun: bool)

  /** `message.split(' ')`: the command and, when there is one, the subcommand. */
  function Words(message: string): (r: (string, Option<string>))
    ensures var parts := Split(message, " ");
      r.0 == parts[0] && (r.1.Some? <==> |parts| > 1) && (r.1.Some? ==> r.1.value == parts[1])
  {
    var parts := Split(message, " ");
    (parts[0], if |parts| > 1 then Some(parts[1]) else None)
  }

  /**
   * `run(opts)` for message `message` from user `userId`. It always answers `true`; the
   * state afterwards is what this function gives.
   */
  function RunEffect(rows: seq<Row>, cache: Cache, message: string, userId: int, check: Check): (r: RunState)
    ensures !StartsWith(message, "!") ==> r == RunState(rows, cache, false)
    ensures StartsWith(message, "!") && FindCommand(rows, Words(message).0).None? ==> r == RunState(rows, cache, false)
    ensures r.rows != rows ==> !r.spun
    ensures r.spun ==> r.rows == rows && Words(message).1 == Some("go")
    ensures StartsWith(message, "!") && FindCommand(rows, Words(message).0).Some? ==>
      var key := (userId, FindCommand(rows, Words(message).0).value.permissionId);
      var cache' := if key in cache then cache else cache[key := check(key.0, key.1)];
      (cache'[key] && Words(message).1 == Some("go") ==> r == RunState(rows, cache', true))
      && (Words(message).1.Some? && Words(message).1.value !in {"", "go"} ==> r == RunState(rows, cache', false))
  {
    if !StartsWith(message, "!") then RunState(rows, cache, false)
    else
      var (command, subcommand) := Words(message);
      match FindCommand(rows, command)
      case None => RunState(rows, cache, false)
      case Some(randomizer) =>
        var key := (userId, randomizer.permissionId);
        var cache' := if key in cache then cache else cache[key := check(userId, randomizer.permissionId)];
        if !cache'[key] then RunState(rows, cache', false)
        else if subcommand.None? || subcommand.value == [] then
          RunState(UpdateById(UpdateAll(rows, false), randomizer.id, !randomizer.isShown), cache', false)
        else if subcommand.value == "go" then RunState(rows, cache', true)
        else RunState(rows, cache', false)
  }

  /**
   * The permission of a user is asked at most once: a cached answer is kept and used, and the
   * check is consulted only to fill a missing entry, which is then kept.
   */
  lemma PermissionCached(rows: seq<Row>, cache: Cache, message: string, userId: int, check: Check, other: Check)
    requires StartsWith(message, "!") && FindCommand(rows, Words(message).0).Some?
    ensures var p := FindCommand(rows, Words(message).0).value.permissionId;
      var r := RunEffect(rows, cache, message, userId, check);
      (userId, p) in r.cache
      && ((userId, p) in cache ==> r.cache == cache && r == RunEffect(rows, cache, message, userId, other))
      && ((userId, p) !in cache ==> r.cache == cache[(userId, p) := check(userId, p)])
  {
    var rnd := FindCommand(rows, Words(message).0).value;
    var key := (userId, rnd.permissionId);
    var cache' := if key in cache then cache else cache[key := check(userId, rnd.permissionId)];
    assert RunEffect(rows, cache, message, userId, check).cache == cache' by {
      CacheAfterRun(rows, cache, message, userId, check);
    }
    if key in cache {
      assert RunEffect(rows, cache, message, userId, check) == RunEffect(rows, cache, message, userId, other) by {
        CachedAnswerUsed(rows, cache, message, userId, check, other);
      }
    }
  }

  /** The cache after a known command: the entry for its permission is filled in if it was missing. */
  lemma CacheAfterRun(rows: seq<Row>, cache: Cache, message: string, userId: int, check: Check)
    requires StartsWith(message, "!") && FindCommand(rows, Words(message).0).Some?
    ensures var p := FindCommand(rows, Words(message).0).value.permissionId;
      RunEffect(rows, cache, message, userId, check).cache
        == if (userId, p) in cache then cache else cache[(userId, p) := check(userId, p)]
  {
  }

  /** With the answer cached, the permission check is not consulted. */
  lemma CachedAnswerUsed(rows: seq<Row>, cache: Cache, message: string, userId: int, check: Check, other: Check)
    requires StartsWith(message, "!") && FindCommand(rows, Words(message).0).Some?
    requires (userId, FindCommand(rows, Words(message).0).value.permissionId) in cache
    ensures RunEffect(rows, cache, message, userId, check) == RunEffect(rows, cache, message, userId, other)
  {
  }

  /** A denied user changes no randomizer and spins nothing. */
  lemma DeniedChangesNothing(rows: seq<Row>, cache: Cache, message: string, userId: int, check: Check)
    requires StartsWith(message, "!") && FindCommand(rows, Words(message).0).Some?
    requires var p := FindCommand(rows, Words(message).0).value.permissionId;
      if (userId, p) in cache then !cache[(userId, p)] else !check(userId, p)
    ensures var r := RunEffect(rows, cache, message, userId, check); r.rows == rows && !r.spun
  {
  }

  /**
   * The command alone toggles its randomizer and hides every other one, so at most one is
   * shown afterwards.
   */
  lemma ToggleShowsAtMostOne(rows: seq<Row>, cache: Cache, message: string, userId: int, check: Check)
    requires UniqueIds(rows) && StartsWith(message, "!")
    requires FindCommand(rows, Words(message).0).Some?
    requires var p := FindCommand(rows, Words(message).0).value.permissionId;
      if (userId, p) in cache then cache[(userId, p)] else check(userId, p)
    requires Words(message).1.None? || Words(message).1.value == []
    ensures var rnd := FindCommand(rows, Words(message).0).value;
      var r := RunEffect(rows, cache, message, userId, check);
      |ShownIndices(r.rows)| <= 1 && !r.spun
      && forall k :: 0 <= k < |rows| ==> r.rows[k].isShown == (rows[k].id == rnd.id && !rnd.isShown)
  {
    var rnd := FindCommand(rows, Words(message).0).value;
    HideThenSet(rows, rnd.id, !rnd.isShown);
  }

  class Randomizers {
    var rows: seq<Row>
    var cache: Cache

    constructor (rows: seq<Row>)
      ensures this.rows == rows && cache == map[]
    {
      this.rows := rows;
      cache := map[];
    }

    /** `update({}, { isShown: shown })`. */
    method SetAll(shown: bool)
      modifies this
      ensures rows == UpdateAll(old(rows), shown) && cache == old(cache)
    {
      var out: seq<Row> := [];
      var i := 0;
      while i < |rows|
        invariant 0 <= i <= |rows|
        invariant out == UpdateAll(rows[..i], shown)
      {
        assert rows[..i + 1][..i] == rows[..i];
        out := out + [rows[i].(isShown := shown)];
        i := i + 1;
      }
      assert rows[..i] == rows;
      rows := out;
    }

    /** `update({ id }, { isShown: shown })`. */
    method SetById(id: string, shown: bool)
      modifies this
      ensures rows == UpdateById(old(rows), id, shown) && cache == old(cache)
    {
      var out: seq<Row> := [];
      var i := 0;
      while i < |rows|
        invariant 0 <= i <= |rows|
        invariant out == UpdateById(rows[..i], id, shown)
      {
        assert rows[..i + 1][..i] == rows[..i];
        out := out + [if rows[i].id == id then rows[i].(isShown := shown) else rows[i]];
        i := i + 1;
      }
      assert rows[..i] == rows;
      rows := out;
    }

    /** The `randomizer::showById` handler. */
    method ShowById(id: string)
      modifies this
      ensures rows == UpdateById(UpdateAll(old(rows), false), id, true) && cache == old(cache)
    {
      SetAll(false);
      SetById(id, true);
    }

    /** The `randomizer::hideAll` handler. */
    method HideAll()
      modifies this
      ensures rows == UpdateAll(old(rows), false) && cache == old(cache)
    {
      SetAll(false);
    }

    /** `run(opts)`: answers `true` always, and whether the spin event was emitted. */
    method Run(message: string, userId: int, check: Check) returns (done: bool, spun: bool)
      modifies this
      ensures done
      ensures RunState(rows, cache, spun) == RunEffect(old(rows), old(cache), message, userId, check)
    {
      done, spun := true, false;
      if !StartsWith(message, "!") {
        return;
      }
      var parts := Split(message, " ");
      var command := parts[0];
      var subcommand := if |parts| > 1 then Some(parts[1]) else None;
      var randomizer := FindCommand(rows, command);
      if randomizer.None? {
        return;
      }
      var key := (userId, randomizer.value.permissionId);
      if key !in cache {
        cache := cache[key := check(userId, randomizer.value.permissionId)];
      }
      if !cache[key] {
        return;
      }
      if subcommand.None? || subcommand.value == [] {
        SetAll(false);
        SetById(randomizer.value.id, !randomizer.value.isShown);
      } else if subcommand.value == "go" {
        spun := true;
      }
    }
  }
}
