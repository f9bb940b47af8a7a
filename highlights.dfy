/**
 * The highlights system: a generated link or `!highlight` marks the current moment of a
 * live stream, and `!highlight list` reads back the marks of the latest stream. The
 * Twitch calls, the clock and the translations are inputs; the table of highlights is a
 * sequence of rows in insertion order.
 */
module Highlights {
  import opened Wrappers
  import opened JsString

  /** One entry of the link generator's settings. */
  datatype UrlSetting = UrlSetting(url: string, clip: bool, highlight: bool)

  /** How the link handler answers, and whether it went on to create a clip or a highlight. */
  datatype UrlAnswer = UrlAnswer(status: int, clipRequested: bool, highlighted: bool)

  /** `urls.find(o => o.url.endsWith(url))`. */
  function FindSetting(urls: seq<UrlSetting>, url: string): (r: Option<UrlSetting>)
    ensures r.Some? ==> r.value in urls && EndsWith(r.value.url, url)
    ensures r.None? <==> forall k :: 0 <= k < |urls| ==> !EndsWith(urls[k].url, url)
    decreases |urls|
  {
    if urls == [] then None
    else if EndsWith(urls[0].url, url) then Some(urls[0])
    else FindSetting(urls[1..], url)
  }

  /**
   * `url(req, res)` for the request `host + originalUrl`. `clipId` is what
   * `api.createClip` answers (`None` or `''` when no clip was made); it is asked only for
   * a link whose setting wants a clip.
   */
  function UrlResponse(urls: seq<UrlSetting>, url: string, enabled: bool, streamOnline: bool,
                       clipId: Option<string>): (r: UrlAnswer)
    ensures r.status == 404 <==> FindSetting(urls, url).None?
    ensures r.status in {200, 403, 404, 412}
    ensures FindSetting(urls, url).Some? && !enabled ==> r == UrlAnswer(412, false, false)
    ensures FindSetting(urls, url).Some? && enabled && !streamOnline ==> r == UrlAnswer(412, false, false)
    ensures r.status == 403 <==>
      FindSetting(urls, url).Some? && enabled && streamOnline && FindSetting(urls, url).value.clip
      && (clipId.None? || clipId.value == [])
    ensures r.status == 200 ==> enabled && streamOnline
    ensures r.clipRequested <==> r.status in {200, 403} && FindSetting(urls, url).value.clip
    ensures r.highlighted <==> r.status == 200 && FindSetting(urls, url).value.highlight
  {
    match FindSetting(urls, url)
    case None => UrlAnswer(404, false, false)
    case Some(setting) =>
      if !enabled then UrlAnswer(412, false, false)
      else if !streamOnline then UrlAnswer(412, false, false)
      else if setting.clip && (clipId.None? || clipId.value == []) then UrlAnswer(403, true, false)
      else UrlAnswer(200, setting.clip, setting.highlight)
  }

  datatype Timestamp = Timestamp(hours: nat, minutes: nat, seconds: nat)

  datatype Highlight = Highlight(videoId: string, timestamp: Timestamp, game: string, title: string, createdAt: int)

  /** The translations the system sends. */
  datatype Texts = Texts(offline: string, saved: string, listEmpty: string, listItems: string)

  /** `value || 'n/a'` for a stream's game or title. */
  function OrNa(value: Option<string>): (r: string)
    ensures r != []
    ensures value.Some? && value.value != [] ==> r == value.value
    ensures value.None? || value.value == [] ==> r == "n/a"
  {
    if value.Some? && value.value != [] then value.value else "n/a"
  }

  /** `n < 10 ? '0' + n : n`, as `replace` prints it. */
  function Padded(n: nat): (r: string)
    ensures |r| >= 2 && AllDigits(r)
  {
    if n < 10 then "0" + NatToString(n) else NatToString(n)
  }

  /** A padded number reads back as the number. */
  lemma PaddedRoundTrip(n: nat)
    ensures DigitsValue(Padded(n)) == n
  {
    NatToStringRoundTrip(n);
    if n < 10 {
      var d := NatToString(n);
      assert Padded(n)[..1] == "0";
    }
  }

  /** The message `add` sends: `$hours`, `$minutes` and `$seconds` filled in with two digits at least. */
  function SavedMessage(saved: string, t: Timestamp): string {
    ReplaceAll(ReplaceAll(ReplaceAll(saved, ["$hours"], Padded(t.hours)), ["$minutes"], Padded(t.minutes)),
               ["$seconds"], Padded(t.seconds))
  }

  /**
   * A template holding `$hours` once among `$`-free text gets exactly the padded hours in
   * its place; the minutes and seconds fields find nothing left to replace.
   */
  lemma SavedHours(pre: string, post: string, t: Timestamp)
    requires '$' !in pre && '$' !in post
    ensures SavedMessage(pre + "$hours" + post, t) == pre + Padded(t.hours) + post
  {
    var h := Padded(t.hours);
    FieldOnce(pre, "$hours", post, h);
    var s := pre + h + post;
    assert '$' !in s;
    AbsentHead(s, "$minutes", '$');
    ReplaceAllNoMatch(s, ["$minutes"], Padded(t.minutes));
    AbsentHead(s, "$seconds", '$');
    ReplaceAllNoMatch(s, ["$seconds"], Padded(t.seconds));
  }

  /** How `main` ends. */
  datatype MainResult =
    /** `highlights.offline` is sent. */
    | Offline
    /** Only logged. */
    | MissingToken
    /** The video request failed or listed no video: only logged. */
    | Failed
    /** The highlight is inserted and the saved message sent. */
    | Saved(highlight: Highlight, message: string)

  /**
   * `main(opts)`. `videos` is the ids of the channel's archived videos as the Helix call
   * answers them (`None` when the call throws), `elapsed` the time since the stream went
   * online, `now` the clock.
   */
  function MainOutcome(texts: Texts, streamOnline: bool, token: string, cid: string, videos: Option<seq<string>>,
                       elapsed: Timestamp, currentGame: Option<string>, currentTitle: Option<string>, now: int): (r: MainResult)
    ensures !streamOnline <==> r == Offline
    ensures r == MissingToken <==> streamOnline && (token == [] || cid == [])
    ensures r.Saved? <==> streamOnline && token != [] && cid != [] && videos.Some? && videos.value != []
    ensures r.Saved? ==> r.highlight == Highlight(videos.value[0], elapsed, OrNa(currentGame), OrNa(currentTitle), now)
    ensures r.Saved? ==> r.message == SavedMessage(texts.saved, elapsed)
  {
    if !streamOnline then Offline
    else if token == [] || cid == [] then MissingToken
    else match videos
      case None => Failed
      case Some(ids) =>
        if ids == [] then Failed
        else Saved(Highlight(ids[0], elapsed, OrNa(currentGame), OrNa(currentTitle), now), SavedMessage(texts.saved, elapsed))
  }

  /** Rows ordered as `find({ order: { createdAt: 'DESC' } })` returns them. */
  predicate NewestFirst(rows: seq<Highlight>) {
    forall k :: 0 <= k < |rows| - 1 ==> rows[k].createdAt >= rows[k + 1].createdAt
  }

  /** In rows ordered newest first, the first row is a most recent one. */
  lemma {:induction false} FirstIsLatest(rows: seq<Highlight>)
    requires rows != [] && NewestFirst(rows)
    ensures forall k :: 0 <= k < |rows| ==> rows[k].createdAt <= rows[0].createdAt
  {
    if |rows| > 1 {
      assert NewestFirst(rows[1..]) by {
        forall k | 0 <= k < |rows[1..]| - 1 ensures rows[1..][k].createdAt >= rows[1..][k + 1].createdAt {
          assert rows[1..][k] == rows[k + 1] && rows[1..][k + 1] == rows[k + 2];
        }
      }
      FirstIsLatest(rows[1..]);
      forall k | 1 <= k < |rows| ensures rows[k].createdAt <= rows[0].createdAt {
        assert rows[k] == rows[1..][k - 1];
      }
    }
  }

  /** `filter((o) => o.videoId === videoId)`. */
  function OfVideo(rows: seq<Highlight>, videoId: string): (r: seq<Highlight>)
    ensures |r| <= |rows|
    ensures forall k :: 0 <= k < |r| ==> r[k].videoId == videoId && r[k] in rows
    ensures rows != [] && rows[0].videoId == videoId ==> r != [] && r[0] == rows[0]
  {
    if rows == [] then []
    else if rows[0].videoId == videoId then [rows[0]] + OfVideo(rows[1..], videoId)
    else OfVideo(rows[1..], videoId)
  }

  /** The filter keeps every row of the video, as many times as it occurs, and no other row. */
  lemma {:induction false} OfVideoCounts(rows: seq<Highlight>, videoId: string)
    ensures forall h :: multiset(OfVideo(rows, videoId))[h] == if h.videoId == videoId then multiset(rows)[h] else 0
  {
    if rows != [] {
      assert rows == [rows[0]] + rows[1..];
      OfVideoCounts(rows[1..], videoId);
      OfVideoCons(rows, videoId);
    }
  }

  /** `hours + 'h' + minutes + 'm' + seconds + 's'`. */
  function Item(t: Timestamp): string {
    NatToString(t.hours) + "h" + NatToString(t.minutes) + "m" + NatToString(t.seconds) + "s"
  }

  function Items(rows: seq<Highlight>): (r: seq<string>)
    ensures |r| == |rows|
  {
    if rows == [] then [] else Items(rows[..|rows| - 1]) + [Item(rows[|rows| - 1].timestamp)]
  }

  /** The list has one entry per row, in order: the row's timestamp as `<h>h<m>m<s>s`. */
  lemma {:induction false} ItemsAt(rows: seq<Highlight>)
    ensures forall k :: 0 <= k < |rows| ==> Items(rows)[k] == Item(rows[k].timestamp)
  {
    if rows != [] {
      var init := rows[..|rows| - 1];
      ItemsAt(init);
      assert forall k :: 0 <= k < |init| ==> init[k] == rows[k];
    }
  }

  /** The message `list` sends for the rows as the query returns them. */
  function ListMessage(texts: Texts, sorted: seq<Highlight>): (r: string)
    ensures sorted == [] ==> r == texts.listEmpty
    ensures sorted != [] ==>
      r == ReplaceAll(texts.listItems, ["$items"], Join(Items(OfVideo(sorted, sorted[0].videoId)), ", "))
  {
    if sorted == [] then texts.listEmpty
    else
      var list := Items(OfVideo(sorted, sorted[0].videoId));
      ReplaceAll(if list != [] then texts.listItems else texts.listEmpty, ["$items"], Join(list, ", "))
  }

  /**
   * With at least one highlight, the list holds every highlight of the latest video, in
   * order, the first being a most recent highlight.
   */
  lemma ListOfLatest(sorted: seq<Highlight>)
    requires sorted != [] && NewestFirst(sorted)
    ensures var latest := OfVideo(sorted, sorted[0].videoId);
      latest != [] && latest[0] == sorted[0]
      && (forall k :: 0 <= k < |sorted| ==> sorted[k].createdAt <= latest[0].createdAt)
      && (forall k :: 0 <= k < |latest| ==> latest[k].videoId == sorted[0].videoId)
      && (forall h :: multiset(latest)[h] == if h.videoId == sorted[0].videoId then multiset(sorted)[h] else 0)
      && NewestFirst(latest)
  {
    FirstIsLatest(sorted);
    OfVideoCounts(sorted, sorted[0].videoId);
    OfVideoNewestFirst(sorted, sorted[0].videoId);
  }

  /** The filter keeps the relative order of the rows: filtering a concatenation filters each part. */
  lemma {:induction false} OfVideoAppend(a: seq<Highlight>, b: seq<Highlight>, videoId: string)
    ensures OfVideo(a + b, videoId) == OfVideo(a, videoId) + OfVideo(b, videoId)
  {
    if a == [] {
      assert a + b == b;
    } else {
      var x, rest := a[0], a[1..];
      assert a == [x] + rest && a + b == [x] + (rest + b);
      OfVideoAppend(rest, b, videoId);
      OfVideoPrepend(x, rest + b, videoId);
      OfVideoPrepend(x, rest, videoId);
      ConcatAssoc(if x.videoId == videoId then [x] else [], OfVideo(rest, videoId), OfVideo(b, videoId));
    }
  }

  /** Rows ordered newest first stay so once filtered. */
  lemma {:induction false} OfVideoNewestFirst(rows: seq<Highlight>, videoId: string)
    requires NewestFirst(rows)
    ensures NewestFirst(OfVideo(rows, videoId))
  {
    if rows != [] {
      var tail := rows[1..];
      assert NewestFirst(tail) by {
        forall k | 0 <= k < |tail| - 1 ensures tail[k].createdAt >= tail[k + 1].createdAt {
          assert tail[k] == rows[k + 1] && tail[k + 1] == rows[k + 2];
        }
      }
      OfVideoNewestFirst(tail, videoId);
      var rest := OfVideo(tail, videoId);
      if rows[0].videoId == videoId && rest != [] {
        FirstIsLatest(rows);
        var j :| 0 <= j < |tail| && tail[j] == rest[0];
        assert rows[j + 1] == rest[0];
        var r := [rows[0]] + rest;
        forall k | 0 <= k < |r| - 1 ensures r[k].createdAt >= r[k + 1].createdAt {
          if k > 0 {
            assert r[k] == rest[k - 1] && r[k + 1] == rest[k];
          }
        }
      }
    }
  }

  class HighlightTable {
    var rows: seq<Highlight>

    constructor (rows: seq<Highlight>)
      ensures this.rows == rows
    {
      this.rows := rows;
    }

    /** `main(opts)`, followed by `add` when a video was found. */
    method SaveHighlight(texts: Texts, streamOnline: bool, token: string, cid: string, videos: Option<seq<string>>,
                elapsed: Timestamp, currentGame: Option<string>, currentTitle: Option<string>, now: int)
      returns (result: MainResult)
      modifies this
      ensures result == MainOutcome(texts, streamOnline, token, cid, videos, elapsed, currentGame, currentTitle, now)
      ensures rows == if result.Saved? then old(rows) + [result.highlight] else old(rows)
    {
      if !streamOnline {
        return Offline;
      }
      if token == [] || cid == [] {
        return MissingToken;
      }
      if videos.None? || videos.value == [] {
        return Failed;
      }
      var highlight := Highlight(videos.value[0], elapsed, OrNa(currentGame), OrNa(currentTitle), now);
      var message := Add(texts, highlight, elapsed);
      return Saved(highlight, message);
    }

    /** `add(highlight, timestamp)`: the saved message, and the row inserted. */
    method Add(texts: Texts, highlight: Highlight, timestamp: Timestamp) returns (message: string)
      modifies this
      ensures message == SavedMessage(texts.saved, timestamp)
      ensures rows == old(rows) + [highlight]
    {
      message := SavedMessage(texts.saved, timestamp);
      rows := rows + [highlight];
    }
  }

  /** One row of the scan: it is kept exactly when it belongs to the video. */
  lemma OfVideoStep(rows: seq<Highlight>, videoId: string, i: nat, kept: seq<Highlight>)
    requires i < |rows| && OfVideo(rows, videoId) == kept + OfVideo(rows[i..], videoId)
    ensures var kept' := if rows[i].videoId == videoId then kept + [rows[i]] else kept;
      OfVideo(rows, videoId) == kept' + OfVideo(rows[i + 1..], videoId)
  {
    var tail := rows[i..];
    assert tail[0] == rows[i] && tail[1..] == rows[i + 1..];
    OfVideoCons(tail, videoId);
    ConcatAssoc(kept, if rows[i].videoId == videoId then [rows[i]] else [], OfVideo(rows[i + 1..], videoId));
  }

  lemma OfVideoPrepend(x: Highlight, rows: seq<Highlight>, videoId: string)
    ensures OfVideo([x] + rows, videoId) == (if x.videoId == videoId then [x] else []) + OfVideo(rows, videoId)
  {
    assert ([x] + rows)[1..] == rows;
  }

  lemma ConcatAssoc(a: seq<Highlight>, b: seq<Highlight>, c: seq<Highlight>)
    ensures a + (b + c) == (a + b) + c
  {
  }

  lemma OfVideoCons(rows: seq<Highlight>, videoId: string)
    requires rows != []
    ensures OfVideo(rows, videoId) == (if rows[0].videoId == videoId then [rows[0]] else []) + OfVideo(rows[1..], videoId)
  {
    if rows[0].videoId != videoId {
      assert [] + OfVideo(rows[1..], videoId) == OfVideo(rows[1..], videoId);
    }
  }

  /** Items of a longer list: the new row's item at the end. */
  lemma ItemsSnoc(rows: seq<Highlight>, h: Highlight)
    ensures Items(rows + [h]) == Items(rows) + [Item(h.timestamp)]
  {
    assert (rows + [h])[..|rows|] == rows;
  }

  /** `list(opts)` for the rows as the query returns them, newest first. */
  method List(texts: Texts, sorted: seq<Highlight>) returns (message: string)
    ensures message == ListMessage(texts, sorted)
  {
    if sorted == [] {
      return texts.listEmpty;
    }
    var latestStreamId := sorted[0].videoId;
    var list: seq<string> := [];
    var i := 0;
    ghost var kept: seq<Highlight> := [];
    while i < |sorted|
      invariant 0 <= i <= |sorted|
      invariant OfVideo(sorted, latestStreamId) == kept + OfVideo(sorted[i..], latestStreamId)
      invariant list == Items(kept)
    {
      OfVideoStep(sorted, latestStreamId, i, kept);
      if sorted[i].videoId == latestStreamId {
        ItemsSnoc(kept, sorted[i]);
        kept := kept + [sorted[i]];
        list := list + [Item(sorted[i].timestamp)];
      }
      i := i + 1;
    }
    assert sorted[i..] == [];
    assert OfVideo(sorted[i..], latestStreamId) == [];
    assert kept + [] == kept;
    assert kept == OfVideo(sorted, latestStreamId);
    message := ReplaceAll(if |list| > 0 then texts.listItems else texts.listEmpty, ["$items"], Join(list, ", "));
  }
}
