/**
 * The HowLongToBeat system: while the stream is live it adds fifteen seconds to the
 * played time of the current game every fifteen seconds, and `!hltb [game]` shows a
 * game's entry, creating one from the HowLongToBeat search when it is missing. The
 * search service, the clock and the current game are inputs; the table of games is a
 * sequence of rows, where saving a row that has no id appends it and saving a found
 * row replaces it.
 */
module HowLongToBeat {
  import opened Wrappers
  import opened JsString

  /** `constants.SECOND * 15`, in milliseconds. */
  const Interval: nat := 15000

  /** One search result of the HowLongToBeat service (hours). */
  datatype Entry = Entry(gameplayMain: real, gameplayCompletionist: real, imageUrl: string)

  /** `hltbService.search(name)`. */
  type Search = string -> seq<Entry>

  datatype Game = Game(
    game: string,
    gameplayMain: real,
    /** `undefined` when the search found nothing. */
    gameplayCompletionist: Option<real>,
    isFinishedMain: bool,
    isFinishedCompletionist: bool,
    timeToBeatMain: int,
    timeToBeatCompletionist: int,
    imageUrl: string,
    startedAt: int)

  /** A string value as JavaScript's truthiness sees it: neither missing nor `''`. */
  predicate Present(s: Option<string>) {
    s.Some? && s.value != []
  }

  /** The current games the ticker and the lookup ignore: missing, blank, or `IRL` once trimmed. */
  predicate Ignored(currentGame: Option<string>) {
    !Present(currentGame) || Trim(currentGame.value) == [] || Trim(currentGame.value) == "IRL"
  }

  /** `findOne({ where: { game: name } })`: the index of the first row for that game. */
  function IndexOfGame(rows: seq<Game>, name: string): (r: Option<nat>)
    ensures r.Some? ==> r.value < |rows| && rows[r.value].game == name
    ensures r.Some? ==> forall j :: 0 <= j < r.value ==> rows[j].game != name
    ensures r.None? ==> forall j :: 0 <= j < |rows| ==> rows[j].game != name
    decreases |rows|
  {
    if rows == [] then None
    else if rows[0].game == name then Some(0)
    else match IndexOfGame(rows[1..], name)
      case None => None
      case Some(k) => Some(k + 1)
  }

  /** An existing row after one tick: each time grows exactly when its finished flag is set. */
  function Advanced(g: Game): (r: Game)
    ensures r.timeToBeatMain > g.timeToBeatMain <==> g.isFinishedMain
    ensures r.timeToBeatMain == g.timeToBeatMain + (if g.isFinishedMain then Interval else 0)
    ensures r.timeToBeatCompletionist > g.timeToBeatCompletionist <==> g.isFinishedCompletionist
    ensures r.timeToBeatCompletionist == g.timeToBeatCompletionist + (if g.isFinishedCompletionist then Interval else 0)
    ensures r == g.(timeToBeatMain := r.timeToBeatMain, timeToBeatCompletionist := r.timeToBeatCompletionist)
  {
    g.(timeToBeatMain := if g.isFinishedMain then g.timeToBeatMain + Interval else g.timeToBeatMain,
       timeToBeatCompletionist :=
         if g.isFinishedCompletionist then g.timeToBeatCompletionist + Interval else g.timeToBeatCompletionist)
  }

  /** A new row for `name` built from the first search result, with both times set to `time`. */
  function NewGame(name: string, found: seq<Entry>, now: int, time: int): (r: Game)
    ensures r.game == name && !r.isFinishedMain && !r.isFinishedCompletionist
    ensures r.timeToBeatMain == time && r.timeToBeatCompletionist == time && r.startedAt == now
    ensures found == [] ==> r.gameplayMain == 0.0 && r.gameplayCompletionist == None && r.imageUrl == []
    ensures found != [] ==> r.gameplayMain == found[0].gameplayMain && r.imageUrl == found[0].imageUrl
    ensures found != [] ==> r.gameplayCompletionist == Some(found[0].gameplayCompletionist)
  {
    if found == [] then Game(name, 0.0, None, false, false, time, time, [], now)
    else Game(name, found[0].gameplayMain, Some(found[0].gameplayCompletionist), false, false, time, time,
              found[0].imageUrl, now)
  }

  /**
   * The table after `addToGameTimestamp()`: an ignored current game changes nothing; a
   * known game is advanced, and a new one added with fifteen seconds on both clocks, but
   * in either case only when HowLongToBeat knows its main play time.
   */
  function Timestamped(rows: seq<Game>, currentGame: Option<string>, search: Search, now: int): (r: seq<Game>)
    ensures Ignored(currentGame) ==> r == rows
    ensures !Ignored(currentGame) && IndexOfGame(rows, currentGame.value).Some? ==>
      var k := IndexOfGame(rows, currentGame.value).value;
      r == if rows[k].gameplayMain > 0.0 then rows[k := Advanced(rows[k])] else rows
    ensures !Ignored(currentGame) && IndexOfGame(rows, currentGame.value).None? ==>
      var g := NewGame(currentGame.value, search(currentGame.value), now, Interval);
      r == if g.gameplayMain > 0.0 then rows + [g] else rows
  {
    if Ignored(currentGame) then rows
    else
      var name := currentGame.value;
      match IndexOfGame(rows, name)
      case Some(k) => if rows[k].gameplayMain > 0.0 then rows[k := Advanced(rows[k])] else rows
      case None =>
        var g := NewGame(name, search(name), now, Interval);
        if g.gameplayMain > 0.0 then rows + [g] else rows
  }

  /** A tick that adds no row changes only the current game's row, and only its two times. */
  lemma TickTouchesOneRow(rows: seq<Game>, currentGame: Option<string>, search: Search, now: int)
    requires |Timestamped(rows, currentGame, search, now)| == |rows|
    ensures var r := Timestamped(rows, currentGame, search, now);
      forall j :: 0 <= j < |rows| && r[j] != rows[j] ==>
        !Ignored(currentGame) && rows[j].game == currentGame.value && r[j] == Advanced(rows[j])
  {
  }

  /** A tick that adds a row adds exactly one, for the current game, and it is the only change. */
  lemma TickAddsNewGame(rows: seq<Game>, currentGame: Option<string>, search: Search, now: int)
    requires |Timestamped(rows, currentGame, search, now)| != |rows|
    ensures var r := Timestamped(rows, currentGame, search, now);
      !Ignored(currentGame) && IndexOfGame(rows, currentGame.value).None? && r[..|rows|] == rows
      && r == rows + [NewGame(currentGame.value, search(currentGame.value), now, Interval)]
      && r[|rows|].gameplayMain > 0.0
  {
  }

  /** What `!hltb` sends. */
  datatype Reply =
    | NoReply
    /** `systems.howlongtobeat.error` for the game. */
    | NotFound(game: string)
    /** `systems.howlongtobeat.game`, filled from the row. */
    | Info(game: string, row: Game)

  /** The game `!hltb` is about: the argument if there is one, else the current game. */
  function Requested(param: Option<string>, currentGame: Option<string>): (r: Option<string>)
    ensures Present(param) ==> r == param
    ensures !Present(param) ==> r == (if Present(currentGame) then currentGame else None)
  {
    if Present(param) then param else if Present(currentGame) then currentGame else None
  }

  /**
   * `currentGameInfo(opts, retry)`: the reply and the table afterwards. A game missing on
   * the first attempt makes the bot add the current game (not the requested one) from the
   * search, with no time played, and try once more; missing on that retry, it is reported.
   */
  function GameInfo(rows: seq<Game>, param: Option<string>, currentGame: Option<string>,
                    search: Search, now: int, retry: bool): (r: (Reply, seq<Game>))
    ensures Requested(param, currentGame).None? ==> r == (NoReply, rows)
    ensures retry ==> r.1 == rows
    ensures Requested(param, currentGame).Some? && IndexOfGame(rows, Requested(param, currentGame).value).Some? ==>
      var name := Requested(param, currentGame).value;
      r == (Info(name, rows[IndexOfGame(rows, name).value]), rows)
    ensures retry && Requested(param, currentGame).Some? && IndexOfGame(rows, Requested(param, currentGame).value).None? ==>
      r == (NotFound(Requested(param, currentGame).value), rows)
    ensures r.0.NotFound? ==> r.0.game == Requested(param, currentGame).value
    ensures |r.1| == |rows| || |r.1| == |rows| + 1
    decreases if retry then 0 else 1
  {
    match Requested(param, currentGame)
    case None => (NoReply, rows)
    case Some(name) =>
      match IndexOfGame(rows, name)
      case Some(k) => (Info(name, rows[k]), rows)
      case None =>
        if retry then (NotFound(name), rows)
        else if Ignored(currentGame) then GameInfo(rows, param, currentGame, search, now, true)
        else
          var g := NewGame(currentGame.value, search(currentGame.value), now, 0);
          var saved := if g.gameplayMain > 0.0 then rows + [g] else rows;
          GameInfo(saved, param, currentGame, search, now, true)
  }

  /** The first attempt retries at most once: what it answers is the retry's answer on its table. */
  lemma RetriesOnce(rows: seq<Game>, param: Option<string>, currentGame: Option<string>, search: Search, now: int)
    requires Requested(param, currentGame).Some?
    requires IndexOfGame(rows, Requested(param, currentGame).value).None?
    ensures var r := GameInfo(rows, param, currentGame, search, now, false);
      r == GameInfo(r.1, param, currentGame, search, now, true)
      && r.0 != NoReply
  {
  }

  /**
   * Asking without an argument for a current game that has no row yet shows the row just
   * created, with no time played, when the search knows the game; otherwise it reports it.
   */
  lemma {:induction false} CurrentGameCreated(rows: seq<Game>, currentGame: Option<string>, search: Search, now: int)
    requires !Ignored(currentGame) && IndexOfGame(rows, currentGame.value).None?
    ensures var name := currentGame.value;
      var g := NewGame(name, search(name), now, 0);
      var r := GameInfo(rows, None, currentGame, search, now, false);
      (g.gameplayMain > 0.0 ==> r == (Info(name, g), rows + [g]))
      && (g.gameplayMain <= 0.0 ==> r == (NotFound(name), rows))
  {
    var name := currentGame.value;
    var g := NewGame(name, search(name), now, 0);
    if g.gameplayMain > 0.0 {
      assert (rows + [g])[|rows|].game == name;
      assert IndexOfGame(rows + [g], name) == Some(|rows|);
    }
  }

  /**
   * Asking for another game than the current one that has no row always ends in the error
   * reply, even when the current game's row is created on the way.
   */
  lemma {:induction false} OtherGameReported(rows: seq<Game>, param: Option<string>, currentGame: Option<string>,
                                             search: Search, now: int)
    requires Present(param) && IndexOfGame(rows, param.value).None?
    requires !Present(currentGame) || currentGame.value != param.value
    ensures GameInfo(rows, param, currentGame, search, now, false).0 == NotFound(param.value)
  {
    var name := param.value;
    assert Requested(param, currentGame) == param;
    if !Ignored(currentGame) {
      var g := NewGame(currentGame.value, search(currentGame.value), now, 0);
      var saved := if g.gameplayMain > 0.0 then rows + [g] else rows;
      assert IndexOfGame(saved, name).None? by {
        forall j | 0 <= j < |saved| ensures saved[j].game != name {
          if j < |rows| {
            assert saved[j] == rows[j];
          }
        }
      }
      assert GameInfo(rows, param, currentGame, search, now, false) == GameInfo(saved, param, currentGame, search, now, true);
    }
  }

  class GameTable {
    var rows: seq<Game>

    constructor (rows: seq<Game>)
      ensures this.rows == rows
    {
      this.rows := rows;
    }

    /** `findOne({ where: { game: name } })`. */
    method FindGame(name: string) returns (k: Option<nat>)
      ensures k == IndexOfGame(rows, name)
    {
      var i := 0;
      while i < |rows|
        invariant 0 <= i <= |rows|
        invariant forall j :: 0 <= j < i ==> rows[j].game != name
      {
        if rows[i].game == name {
          return Some(i);
        }
        i := i + 1;
      }
      return None;
    }

    /** `save(row)`: a new row is appended, a found row is replaced. */
    method Save(row: Game, at: Option<nat>)
      modifies this
      requires at.Some? ==> at.value < |rows|
      ensures rows == if at.Some? then old(rows)[at.value := row] else old(rows) + [row]
    {
      if at.Some? {
        rows := rows[at.value := row];
      } else {
        rows := rows + [row];
      }
    }

    /** `addToGameTimestamp()`, one tick of the live-stream timer. */
    method AddToGameTimestamp(currentGame: Option<string>, search: Search, now: int)
      modifies this
      ensures rows == Timestamped(old(rows), currentGame, search, now)
    {
      if Ignored(currentGame) {
        return;
      }
      var name := currentGame.value;
      var k := FindGame(name);
      if k.Some? {
        var g := rows[k.value];
        var timeToBeatMain := if g.isFinishedMain then g.timeToBeatMain + Interval else g.timeToBeatMain;
        var timeToBeatCompletionist :=
          if g.isFinishedCompletionist then g.timeToBeatCompletionist + Interval else g.timeToBeatCompletionist;
        if g.gameplayMain > 0.0 {
          var advanced := g.(timeToBeatMain := timeToBeatMain, timeToBeatCompletionist := timeToBeatCompletionist);
          assert advanced == Advanced(g);
          Save(advanced, k);
        }
      } else {
        var game := NewGame(name, search(name), now, Interval);
        if game.gameplayMain > 0.0 {
          Save(game, None);
        }
      }
    }

    /** `currentGameInfo(opts, retry)` with `param` the optional argument of `!hltb`. */
    method CurrentGameInfo(param: Option<string>, currentGame: Option<string>, search: Search, now: int, retry: bool)
      returns (reply: Reply)
      modifies this
      ensures (reply, rows) == GameInfo(old(rows), param, currentGame, search, now, retry)
      decreases if retry then 0 else 1
    {
      var game: string;
      if !Present(param) {
        if !Present(currentGame) {
          return NoReply;
        }
        game := currentGame.value;
      } else {
        game := param.value;
      }
      var k := FindGame(game);
      if k.None? && !retry {
        if Ignored(currentGame) {
          reply := CurrentGameInfo(param, currentGame, search, now, true);
          return;
        }
        var g := NewGame(currentGame.value, search(currentGame.value), now, 0);
        if g.gameplayMain > 0.0 {
          Save(g, None);
        }
        reply := CurrentGameInfo(param, currentGame, search, now, true);
        return;
      } else if k.None? {
        return NotFound(game);
      }
      reply := Info(game, rows[k.value]);
    }
  }
}
