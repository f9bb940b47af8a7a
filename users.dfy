/**
 * The user table of the bot: the watch-time ticker that runs every thirty seconds, the
 * clamped per-user lookups, the id-to-name map and the adjustment made before a viewer
 * record edited in the dashboard is saved. The database table is a sequence of rows;
 * `findOne({ userId })` picks the first row with that id.
 */
module Users {
  import opened Wrappers

  /** The ticker period in milliseconds, which is also what every tick adds. */
  const Interval: nat := 30000

  /** JavaScript's `Number.MAX_SAFE_INTEGER`. */
  const MaxSafeInteger: int := 9007199254740991

  datatype User = User(
    userId: int,
    username: string,
    isOnline: bool,
    watchedTime: int,
    chatTimeOnline: int,
    chatTimeOffline: int,
    messages: int,
    pointsByMessageGivenAt: int)

  /** The three counters a tick increments. */
  datatype Field = WatchedTime | ChatTimeOnline | ChatTimeOffline

  function Get(u: User, f: Field): int {
    match f
    case WatchedTime => u.watchedTime
    case ChatTimeOnline => u.chatTimeOnline
    case ChatTimeOffline => u.chatTimeOffline
  }

  /** `findOne({ userId: id })`. */
  function Find(rows: seq<User>, id: int): (r: Option<User>)
    ensures r.Some? <==> exists k :: 0 <= k < |rows| && rows[k].userId == id
    ensures r.Some? ==> r.value in rows && r.value.userId == id
    decreases |rows|
  {
    if rows == [] then None
    else if rows[0].userId == id then Some(rows[0])
    else Find(rows[1..], id)
  }

  /** `n <= Number.MAX_SAFE_INTEGER ? n : Number.MAX_SAFE_INTEGER`. */
  function Clamp(n: int): (r: int)
    ensures r <= MaxSafeInteger && r <= n
    ensures r == n || r == MaxSafeInteger
  {
    if n <= MaxSafeInteger then n else MaxSafeInteger
  }

  /** `getChatOf(id, online)`: the online or offline chat time of a user. */
  function ChatOf(rows: seq<User>, id: int, online: bool): (r: int)
    ensures Find(rows, id).None? ==> r == 0
    ensures Find(rows, id).Some? ==>
      var chat := if online then Find(rows, id).value.chatTimeOnline else Find(rows, id).value.chatTimeOffline;
      r <= MaxSafeInteger && (chat <= MaxSafeInteger ==> r == chat) && (chat > MaxSafeInteger ==> r == MaxSafeInteger)
  {
    match Find(rows, id)
    case None => 0
    case Some(u) => Clamp(if online then u.chatTimeOnline else u.chatTimeOffline)
  }

  /** `getWatchedOf(id)`. */
  function WatchedOf(rows: seq<User>, id: int): (r: int)
    ensures Find(rows, id).None? ==> r == 0
    ensures Find(rows, id).Some? ==>
      var w := Find(rows, id).value.watchedTime;
      r <= MaxSafeInteger && (w <= MaxSafeInteger ==> r == w) && (w > MaxSafeInteger ==> r == MaxSafeInteger)
  {
    match Find(rows, id)
    case None => 0
    case Some(u) => Clamp(u.watchedTime)
  }

  /** `getMessagesOf(id)`. */
  function MessagesOf(rows: seq<User>, id: int): (r: int)
    ensures Find(rows, id).None? ==> r == 0
    ensures Find(rows, id).Some? ==>
      var m := Find(rows, id).value.messages;
      r <= MaxSafeInteger && (m <= MaxSafeInteger ==> r == m) && (m > MaxSafeInteger ==> r == MaxSafeInteger)
  {
    match Find(rows, id)
    case None => 0
    case Some(u) => Clamp(u.messages)
  }

  /** A row as `viewers::save` stores it: points given for messages never exceed the messages. */
  function SaveAdjusted(v: User): (r: User)
    ensures r.pointsByMessageGivenAt <= r.messages
    ensures v.pointsByMessageGivenAt <= v.messages ==> r == v
    ensures r == v.(pointsByMessageGivenAt := r.pointsByMessageGivenAt)
    ensures r.pointsByMessageGivenAt <= v.pointsByMessageGivenAt
  {
    if v.messages < v.pointsByMessageGivenAt then v.(pointsByMessageGivenAt := v.messages) else v
  }

  /** The number of rows with `isOnline` set. */
  function CountOnline(rows: seq<User>): (n: nat)
    ensures n <= |rows|
  {
    if rows == [] then 0
    else CountOnline(rows[..|rows| - 1]) + (if rows[|rows| - 1].isOnline then 1 else 0)
  }

  /** `find({ isOnline: true, watchedTime: 0 })`, counted. */
  function CountNew(rows: seq<User>): (n: nat)
    ensures n <= CountOnline(rows)
  {
    if rows == [] then 0
    else
      var u := rows[|rows| - 1];
      CountNew(rows[..|rows| - 1]) + (if u.isOnline && u.watchedTime == 0 then 1 else 0)
  }

  /** The sum of one counter over the table. */
  function Total(rows: seq<User>, f: Field): int {
    if rows == [] then 0 else Total(rows[..|rows| - 1], f) + Get(rows[|rows| - 1], f)
  }

  /** One row after `increment({ isOnline: true }, f, Interval)`. */
  function Bumped(u: User, f: Field): (r: User)
    ensures r.isOnline == u.isOnline && r.userId == u.userId && r.username == u.username
    ensures !u.isOnline ==> r == u
    ensures u.isOnline ==> Get(r, f) == Get(u, f) + Interval
    ensures forall g :: g != f ==> Get(r, g) == Get(u, g)
    ensures r.messages == u.messages && r.pointsByMessageGivenAt == u.pointsByMessageGivenAt
  {
    if !u.isOnline then u
    else
      match f
      case WatchedTime => u.(watchedTime := u.watchedTime + Interval)
      case ChatTimeOnline => u.(chatTimeOnline := u.chatTimeOnline + Interval)
      case ChatTimeOffline => u.(chatTimeOffline := u.chatTimeOffline + Interval)
  }

  /** The table after `increment({ isOnline: true }, f, Interval)`. */
  function IncrementAll(rows: seq<User>, f: Field): (r: seq<User>)
    ensures |r| == |rows|
    ensures forall k :: 0 <= k < |rows| ==> r[k] == Bumped(rows[k], f)
  {
    if rows == [] then [] else IncrementAll(rows[..|rows| - 1], f) + [Bumped(rows[|rows| - 1], f)]
  }

  /** The table after `update({}, { isOnline: false })`. */
  function AllOffline(rows: seq<User>): (r: seq<User>)
    ensures |r| == |rows|
    ensures forall k :: 0 <= k < |rows| ==> r[k] == rows[k].(isOnline := false)
  {
    if rows == [] then [] else AllOffline(rows[..|rows| - 1]) + [rows[|rows| - 1].(isOnline := false)]
  }

  /** After start-up nobody is online, and every other column is as it was. */
  lemma {:induction false} NobodyOnlineAfterInit(rows: seq<User>)
    ensures CountOnline(AllOffline(rows)) == 0
    ensures CountNew(AllOffline(rows)) == 0
  {
    if rows != [] {
      var r := AllOffline(rows);
      assert r[..|r| - 1] == AllOffline(rows[..|rows| - 1]);
      NobodyOnlineAfterInit(rows[..|rows| - 1]);
    }
  }

  /** An increment adds `Interval` once per online row to the incremented counter's total. */
  lemma {:induction false} IncrementTotal(rows: seq<User>, f: Field)
    ensures Total(IncrementAll(rows, f), f) == Total(rows, f) + CountOnline(rows) * Interval
  {
    if rows != [] {
      var r := IncrementAll(rows, f);
      assert r[..|r| - 1] == IncrementAll(rows[..|rows| - 1], f);
      IncrementTotal(rows[..|rows| - 1], f);
    }
  }

  /** An increment leaves the totals of the other counters alone. */
  lemma {:induction false} IncrementOthers(rows: seq<User>, f: Field, g: Field)
    requires g != f
    ensures Total(IncrementAll(rows, f), g) == Total(rows, g)
  {
    if rows != [] {
      var r := IncrementAll(rows, f);
      assert r[..|r| - 1] == IncrementAll(rows[..|rows| - 1], f);
      IncrementOthers(rows[..|rows| - 1], f, g);
    }
  }

  /** An increment keeps who is online, so counting the online rows afterwards gives the same number. */
  lemma {:induction false} IncrementKeepsOnline(rows: seq<User>, f: Field)
    ensures CountOnline(IncrementAll(rows, f)) == CountOnline(rows)
  {
    if rows != [] {
      var r := IncrementAll(rows, f);
      assert r[..|r| - 1] == IncrementAll(rows[..|rows| - 1], f);
      IncrementKeepsOnline(rows[..|rows| - 1], f);
    }
  }

  /** The table after a tick that is not the start-up one. */
  function Ticked(rows: seq<User>, streamOnline: bool): seq<User> {
    if streamOnline then IncrementAll(IncrementAll(rows, WatchedTime), ChatTimeOnline)
    else IncrementAll(rows, ChatTimeOffline)
  }

  /**
   * What a tick does to the table: online viewers of a live stream gain `Interval` of
   * watched and online chat time, online viewers of an offline stream gain offline chat
   * time only, and nobody else changes.
   */
  lemma TickEffect(rows: seq<User>, streamOnline: bool)
    ensures |Ticked(rows, streamOnline)| == |rows|
    ensures forall k :: 0 <= k < |rows| && !rows[k].isOnline ==> Ticked(rows, streamOnline)[k] == rows[k]
    ensures forall k :: 0 <= k < |rows| && rows[k].isOnline ==>
      var u, r := rows[k], Ticked(rows, streamOnline)[k];
      if streamOnline then
        r == u.(watchedTime := u.watchedTime + Interval, chatTimeOnline := u.chatTimeOnline + Interval)
      else r == u.(chatTimeOffline := u.chatTimeOffline + Interval)
  {
  }

  /** The counters' totals after a tick. */
  lemma TickTotals(rows: seq<User>, streamOnline: bool)
    ensures var r := Ticked(rows, streamOnline);
      Total(r, WatchedTime) == Total(rows, WatchedTime) + (if streamOnline then CountOnline(rows) * Interval else 0)
      && Total(r, ChatTimeOnline) == Total(rows, ChatTimeOnline) + (if streamOnline then CountOnline(rows) * Interval else 0)
      && Total(r, ChatTimeOffline) == Total(rows, ChatTimeOffline) + (if streamOnline then 0 else CountOnline(rows) * Interval)
  {
    if streamOnline {
      var w := IncrementAll(rows, WatchedTime);
      IncrementTotal(rows, WatchedTime);
      IncrementOthers(rows, WatchedTime, ChatTimeOnline);
      IncrementOthers(rows, WatchedTime, ChatTimeOffline);
      IncrementKeepsOnline(rows, WatchedTime);
      IncrementTotal(w, ChatTimeOnline);
      IncrementOthers(w, ChatTimeOnline, WatchedTime);
      IncrementOthers(w, ChatTimeOnline, ChatTimeOffline);
    } else {
      IncrementTotal(rows, ChatTimeOffline);
      IncrementOthers(rows, ChatTimeOffline, WatchedTime);
      IncrementOthers(rows, ChatTimeOffline, ChatTimeOnline);
    }
  }

  /** The `api.stats` counters the ticker feeds. */
  class Stats {
    var newChatters: int
    var currentWatchedTime: int

    constructor (newChatters: int, currentWatchedTime: int)
      ensures this.newChatters == newChatters && this.currentWatchedTime == currentWatchedTime
    {
      this.newChatters := newChatters;
      this.currentWatchedTime := currentWatchedTime;
    }
  }

  class UserTable {
    var rows: seq<User>

    constructor (rows: seq<User>)
      ensures this.rows == rows
    {
      this.rows := rows;
    }

    /** `update({}, { isOnline: false })`. */
    method SetAllOffline()
      modifies this
      ensures rows == AllOffline(old(rows))
    {
      var out: seq<User> := [];
      var i := 0;
      while i < |rows|
        invariant 0 <= i <= |rows|
        invariant out == AllOffline(rows[..i])
      {
        assert rows[..i + 1][..i] == rows[..i];
        out := out + [rows[i].(isOnline := false)];
        i := i + 1;
      }
      assert rows[..i] == rows;
      rows := out;
    }

    /** `increment({ isOnline: true }, f, Interval)`, answering the number of rows affected. */
    method Increment(f: Field) returns (affected: nat)
      modifies this
      ensures rows == IncrementAll(old(rows), f)
      ensures affected == CountOnline(old(rows))
    {
      var out: seq<User> := [];
      affected := 0;
      var i := 0;
      while i < |rows|
        invariant 0 <= i <= |rows|
        invariant out == IncrementAll(rows[..i], f)
        invariant affected == CountOnline(rows[..i])
      {
        assert rows[..i + 1][..i] == rows[..i];
        if rows[i].isOnline {
          affected := affected + 1;
        }
        out := out + [Bumped(rows[i], f)];
        i := i + 1;
      }
      assert rows[..i] == rows;
      rows := out;
    }

    /** `find({ isOnline: true, watchedTime: 0 }).length`. */
    method CountNewChatters() returns (n: nat)
      ensures n == CountNew(rows)
    {
      n := 0;
      var i := 0;
      while i < |rows|
        invariant 0 <= i <= |rows|
        invariant n == CountNew(rows[..i])
      {
        assert rows[..i + 1][..i] == rows[..i];
        if rows[i].isOnline && rows[i].watchedTime == 0 {
          n := n + 1;
        }
        i := i + 1;
      }
      assert rows[..i] == rows;
    }

    /** `find({ isOnline: true }).length`. */
    method CountOnlineUsers() returns (n: nat)
      ensures n == CountOnline(rows)
    {
      n := 0;
      var i := 0;
      while i < |rows|
        invariant 0 <= i <= |rows|
        invariant n == CountOnline(rows[..i])
      {
        assert rows[..i + 1][..i] == rows[..i];
        if rows[i].isOnline {
          n := n + 1;
        }
        i := i + 1;
      }
      assert rows[..i] == rows;
    }

    /**
     * `updateWatchTime(isInit)`, one tick. `reportsAffected` says whether the database
     * driver reports how many rows an increment touched; when it does not, the online
     * rows are counted again after the increments, which gives the same number.
     */
    method UpdateWatchTime(isInit: bool, streamOnline: bool, reportsAffected: bool, stats: Stats)
      modifies this, stats
      ensures isInit ==> rows == AllOffline(old(rows)) && stats.newChatters == old(stats.newChatters)
      ensures isInit ==> stats.currentWatchedTime == old(stats.currentWatchedTime)
      ensures !isInit ==> rows == Ticked(old(rows), streamOnline)
      ensures !isInit ==> stats.newChatters == old(stats.newChatters) + CountNew(old(rows))
      ensures !isInit ==>
        stats.currentWatchedTime == old(stats.currentWatchedTime) + (if streamOnline then CountOnline(old(rows)) * Interval else 0)
    {
      if isInit {
        SetAllOffline();
      } else {
        var newChatters := CountNewChatters();
        stats.newChatters := stats.newChatters + newChatters;
        if streamOnline {
          var affected := Increment(WatchedTime);
          var _ := Increment(ChatTimeOnline);
          if reportsAffected {
            stats.currentWatchedTime := stats.currentWatchedTime + affected * Interval;
          } else {
            IncrementKeepsOnline(old(rows), WatchedTime);
            IncrementKeepsOnline(IncrementAll(old(rows), WatchedTime), ChatTimeOnline);
            var users := CountOnlineUsers();
            stats.currentWatchedTime := stats.currentWatchedTime + users * Interval;
          }
        } else {
          var _ := Increment(ChatTimeOffline);
        }
      }
    }

    /**
     * `getUsernamesFromIds(ids)`: the names of the ids that have a row. `queried` lists the
     * lookups made, in order: an id already found is not looked up again, but an id without
     * a row is looked up every time it occurs.
     */
    method UsernamesFromIds(ids: seq<int>) returns (names: map<int, string>, queried: seq<int>)
      ensures forall id :: id in names <==> id in ids && Find(rows, id).Some?
      ensures forall id :: id in names ==> names[id] == Find(rows, id).value.username
      ensures forall id :: id in ids && Find(rows, id).Some? ==> multiset(queried)[id] == 1
      ensures forall id :: Find(rows, id).None? ==> multiset(queried)[id] == multiset(ids)[id]
      ensures multiset(queried) <= multiset(ids)
    {
      names := map[];
      queried := [];
      var i := 0;
      while i < |ids|
        invariant 0 <= i <= |ids|
        invariant forall id :: id in names <==> id in ids[..i] && Find(rows, id).Some?
        invariant forall id :: id in names ==> names[id] == Find(rows, id).value.username
        invariant forall id :: id in ids[..i] && Find(rows, id).Some? ==> multiset(queried)[id] == 1
        invariant forall id :: Find(rows, id).None? ==> multiset(queried)[id] == multiset(ids[..i])[id]
        invariant multiset(queried) <= multiset(ids[..i])
      {
        var id := ids[i];
        assert ids[..i + 1] == ids[..i] + [id];
        if id !in names {
          queried := queried + [id];
          var user := Find(rows, id);
          if user.Some? {
            names := names[id := user.value.username];
          }
        }
        i := i + 1;
      }
      assert ids[..i] == ids;
    }
  }
}
