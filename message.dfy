/**
 * The `Message` class: a buffer that `global`, the pass runners, the local replaces and
 * the api pass rewrite in place, in the order `parse` calls them. Every method is proved
 * to leave the buffer where the functions of `Engine` and `Api` say.
 */
module Messages {
  import opened Wrappers
  import opened JsString
  import opened Values
  import opened Matcher
  import opened Resolvers
  import opened Engine
  import Api
  import Json

  class Message {
    /** The text being parsed. */
    var message: string

    /** The raw text with its HTML entities decoded (decoding is `decode`). */
    constructor (raw: string, decode: string -> string)
      ensures message == decode(raw)
    {
      message := decode(raw);
    }

    /**
     * `global`: the stream statistics, the version, the latest events and the songs are
     * replaced in a fixed order; the decoded text is returned and the buffer keeps the
     * undecoded one.
     */
    method Global(d: GlobalData, decode: string -> string) returns (decoded: string)
      modifies this
      ensures message == GlobalText(d, old(message))
      ensures decoded == decode(message)
    {
      var steps := GlobalSteps(d);
      var i := 0;
      while i < |steps|
        invariant 0 <= i <= |steps|
        invariant ReplaceSeq(message, steps[i..]) == ReplaceSeq(old(message), steps)
      {
        assert steps[i..][0] == steps[i] && steps[i..][1..] == steps[i + 1..];
        message := ReplaceAll(message, [steps[i].0], steps[i].1);
        i := i + 1;
      }
      message := ReplaceAll(message, ["$ytSong"], YoutubeText(d, message));
      decoded := decode(message);
    }

    /** What a runner does with the value `v` resolved for the match `m`; `false` when that throws. */
    method PutValue(mode: Mode, rwe: bool, m: string, v: Value) returns (ok: bool)
      requires m != []
      modifies this
      ensures ok == Splice(mode, rwe, old(message), m, v).Some?
      ensures ok ==> message == Splice(mode, rwe, old(message), m, v).value
    {
      ReplaceFirstInEmpty(m, ToStr(v));
      ok := true;
      match mode
      case Online =>
        if !Truthy(v) {
          message := "";
        } else {
          message := Trim(ReplaceFirst(message, m, ""));
        }
      case Command =>
        message := Trim(ReplaceFirst(message, m, ToStr(v)));
      case Eval =>
        if v.Null? {
          return false;
        }
        if v.Undefined? || v == Str("") {
          message := "";
        }
        message := Trim(ReplaceFirst(message, m, ToStr(v)));
      case _ =>
        if rwe && IsNilOrEmpty(v) {
          message := "";
        }
        message := Trim(ReplaceFirst(message, m, ToStr(v)));
    }

    /**
     * A pass runner (`parseMessageEach`, `parseMessageVariables`, `parseMessageEval`,
     * `parseMessageOnline`, `parseMessageCommand`): for each key of the table in order,
     * the matches are listed once and each is resolved and put into the buffer. `ok` is
     * `false` when a resolver throws; `c` is the context the resolvers leave.
     */
    method ParseMessagePass(env: Env, hs: Handlers, mode: Mode, rwe: bool, table: seq<Resolver>, ctx: Ctx) returns (ok: bool, c: Ctx)
      modifies this
      ensures var run := RunPass(env, hs, mode, rwe, table, old(message), ctx);
        ok == run.Ok? && c == run.ctx && (ok ==> message == run.buf)
    {
      if IsBlank(message) {
        return true, ctx;
      }
      ok, c := ParseKeys(env, hs, mode, rwe, table, ctx);
    }

    /** The keys of the table in order, on a buffer that is not blank. */
    method ParseKeys(env: Env, hs: Handlers, mode: Mode, rwe: bool, table: seq<Resolver>, ctx: Ctx) returns (ok: bool, c: Ctx)
      modifies this
      ensures var run := RunKeys(env, hs, mode, rwe, table, old(message), ctx);
        ok == run.Ok? && c == run.ctx && (ok ==> message == run.buf)
    {
      ghost var goal := RunKeys(env, hs, mode, rwe, table, message, ctx);
      c := ctx;
      // The keys not yet handled.
      var rest := table;
      while rest != []
        invariant RunKeys(env, hs, mode, rwe, rest, message, c) == goal
        decreases |rest|
      {
        ok, c := ParseKey(env, hs, mode, rwe, rest, c);
        if !ok {
          return;
        }
        rest := rest[1..];
      }
      ok := true;
    }

    /** The first key of `table`: its matches listed once, then each resolved in turn. */
    method ParseKey(env: Env, hs: Handlers, mode: Mode, rwe: bool, table: seq<Resolver>, ctx: Ctx) returns (ok: bool, c: Ctx)
      requires table != []
      modifies this
      ensures !ok ==> RunKeys(env, hs, mode, rwe, table, old(message), ctx) == Rejected(c)
      ensures ok ==> RunKeys(env, hs, mode, rwe, table, old(message), ctx) == RunKeys(env, hs, mode, rwe, table[1..], message, c)
    {
      var ms := MatchAll(env.rx, Key(table[0]), mode, message);
      ghost var before := message;
      ok, c := ParseMatches(mode, rwe, hs(table[0]), ms, ctx);
      if !ok {
        KeysRejected(env, hs, mode, rwe, table, before, ctx);
      } else {
        KeysStep(env, hs, mode, rwe, table, before, ctx, message, c);
      }
    }

    /** The matches of one key, each resolved and put into the buffer in turn. */
    method ParseMatches(mode: Mode, rwe: bool, f: Handler, ms: seq<string>, ctx: Ctx) returns (ok: bool, c: Ctx)
      requires forall k :: 0 <= k < |ms| ==> ms[k] != []
      modifies this
      ensures var run := RunMatches(mode, rwe, f, ms, old(message), ctx);
        ok == run.Ok? && c == run.ctx && (ok ==> message == run.buf)
    {
      c := ctx;
      var j := 0;
      while j < |ms|
        invariant 0 <= j <= |ms|
        invariant RunMatches(mode, rwe, f, ms[j..], message, c) == RunMatches(mode, rwe, f, ms, old(message), ctx)
      {
        assert ms[j..][0] == ms[j] && ms[j..][1..] == ms[j + 1..];
        ok, c := ParseOne(mode, rwe, f, ms[j], ms[j..], c);
        if !ok {
          return;
        }
        j := j + 1;
      }
      assert ms[j..] == [];
      ok := true;
    }

    /** The first of the matches `ms`, the text `m`, resolved and put into the buffer. */
    method ParseOne(mode: Mode, rwe: bool, f: Handler, m: string, ghost ms: seq<string>, ctx: Ctx)
      returns (ok: bool, c: Ctx)
      requires ms != [] && ms[0] == m && m != []
      modifies this
      ensures var run := RunMatches(mode, rwe, f, ms, old(message), ctx);
        (ok ==> run == RunMatches(mode, rwe, f, ms[1..], message, c)) && (!ok ==> run == Rejected(c))
    {
      var res := f(m, ctx);
      c := res.ctx;
      if res.out.Throw? {
        return false, c;
      }
      ok := PutValue(mode, rwe, m, res.out.v);
    }

    /** The local replaces: every entry of `attr` replaces each `$key` by its text. */
    method LocalReplaces(env: Env, attr: Option<Attr>)
      modifies this
      ensures message == LocalSubst(env, attr, old(message))
    {
      if attr.None? {
        return;
      }
      var entries := Entries(env, attr.value);
      ghost var steps := LocalSteps(entries);
      var i := 0;
      while i < |entries|
        invariant 0 <= i <= |entries|
        invariant ReplaceSeq(message, steps[i..]) == LocalSubst(env, attr, old(message))
      {
        assert steps[i..][0] == steps[i] && steps[i..][1..] == steps[i + 1..];
        var (key, value) := entries[i];
        message := ReplaceAll(message, ["$" + key], value);
        i := i + 1;
      }
    }

    /**
     * `parseMessageApi`: the first `(api|http…)` token is removed and its URL fetched;
     * then every `(api.<path>)` token is replaced by what its path reaches in the body, or
     * `(api._response)` by the whole body. `false` when the request or a walk throws.
     */
    method ParseMessageApi(fetch: Api.Fetch, notAvailable: string) returns (ok: bool)
      modifies this
      ensures var r := Api.ApiPass(fetch, notAvailable, old(message));
        ok == r.Some? && (ok ==> message == r.value)
    {
      if IsBlank(message) {
        return true;
      }
      match Api.FindCall(message, 0)
      case None =>
        return true;
      case Some((i, e)) =>
        ok := ApiCall(fetch, notAvailable, i, e);
    }

    /** The api call whose token spans `message[i..e + 1]`. */
    method ApiCall(fetch: Api.Fetch, notAvailable: string, i: nat, e: nat) returns (ok: bool)
      requires i + 10 <= e < |message|
      modifies this
      ensures var r := Api.Call(fetch, notAvailable, old(message), i, e);
        ok == r.Some? && (ok ==> message == r.value)
    {
      var url := ReplaceAll(message[i + 5..e], ["&amp;"], "&");
      message := Trim(ReplaceFirst(message, message[i..e + 1], ""));
      var response := fetch(url);
      if response.None? {
        return false;
      }
      var (status, data) := response.value;
      ok := PutAnswer(status, data, notAvailable);
    }

    /** The response put into the message; any status but 200 leaves the message as it is. */
    method PutAnswer(status: int, data: Json.Json, notAvailable: string) returns (ok: bool)
      modifies this
      ensures var r := Api.Answer(status, data, notAvailable, old(message)); ok == r.Some? && (ok ==> message == r.value)
    {
      if status != 200 {
        // The translated error text is returned to a caller that ignores it.
        return true;
      }
      var tags := Api.Accessors(message, 0);
      if tags == [] {
        ok := PutBody(data);
      } else {
        ok := PutTags(data, notAvailable, tags);
      }
    }

    /** `(api._response)` replaced by the whole body; `false` for a `null` body, which has no `toString`. */
    method PutBody(data: Json.Json) returns (ok: bool)
      modifies this
      ensures var r := Api.WholeBody(data, old(message)); ok == r.Some? && (ok ==> message == r.value)
    {
      if data.JArr? || data.JObj? {
        message := ReplaceFirst(message, "(api._response)", Json.Stringify(data));
      } else if data.JNull? {
        return false;
      } else {
        message := ReplaceFirst(message, "(api._response)", Api.StripQuotes(Json.JsonToString(data)));
      }
      ok := true;
    }

    /** Each accessor token replaced by what its path reaches; `false` when a walk throws. */
    method PutTags(data: Json.Json, notAvailable: string, tags: seq<string>) returns (ok: bool)
      modifies this
      ensures var r := Api.ReplaceTags(data, notAvailable, tags, old(message)); ok == r.Some? && (ok ==> message == r.value)
    {
      var k := 0;
      while k < |tags|
        invariant 0 <= k <= |tags|
        invariant Api.ReplaceTags(data, notAvailable, tags[k..], message) == Api.ReplaceTags(data, notAvailable, tags, old(message))
      {
        assert tags[k..][0] == tags[k] && tags[k..][1..] == tags[k + 1..];
        ok := PutTag(data, notAvailable, tags[k], tags[k..]);
        if !ok {
          return;
        }
        k := k + 1;
      }
      assert tags[k..] == [];
      ok := true;
    }

    /** The first of the tokens `tags`, the text `tag`, replaced by what its path reaches. */
    method PutTag(data: Json.Json, notAvailable: string, tag: string, ghost tags: seq<string>) returns (ok: bool)
      requires tags != [] && tags[0] == tag
      modifies this
      ensures var r := Api.ReplaceTags(data, notAvailable, tags, old(message));
        (ok ==> r == Api.ReplaceTags(data, notAvailable, tags[1..], message)) && (!ok ==> r == None)
    {
      var w := FollowPath(data, Api.Segments(tag));
      Api.TagStep(data, notAvailable, tags, message, w);
      if w.Threw? {
        return false;
      }
      message := ReplaceFirst(message, tag, Api.Shown(w, notAvailable));
      ok := true;
    }

    /**
     * `parse`: `global`, then the passes and the local replaces in their fixed order, then
     * the api pass. `ok` is `false` when some step throws, and `c` holds the attributes as
     * the resolvers left them, the random draws made and the side effects caused.
     */
    method Parse(env: Env, d: GlobalData, attr: Option<Attr>, decode: string -> string) returns (ok: bool, c: Ctx)
      modifies this
      ensures var run := ParseResult(env, d, attr, old(message));
        ok == run.Ok? && c == run.ctx && (ok ==> message == run.buf)
    {
      ok, c := RunStages(env, ResolverTable(env), d, decode, Ctx(attr, 0, []));
    }

    /** The stages of the pipeline in order, with the filters `hs`, until one throws or all have run. */
    method RunStages(env: Env, hs: Handlers, d: GlobalData, decode: string -> string, ctx: Ctx) returns (ok: bool, c: Ctx)
      modifies this
      ensures var run := RunFrom(env, hs, d, 0, old(message), ctx);
        ok == run.Ok? && c == run.ctx && (ok ==> message == run.buf)
    {
      c := ctx;
      ghost var goal := RunFrom(env, hs, d, 0, message, ctx);
      // The index of the stage about to run.
      var k := 0;
      while k < StageCount
        invariant 0 <= k <= StageCount
        invariant RunFrom(env, hs, d, k, message, c) == goal
      {
        var more;
        more, ok, c := Stage(env, hs, d, decode, k, c, goal);
        if !more { return; }
        k := k + 1;
      }
      ok := true;
    }

    /**
     * The stage at index `k`. `more` is `false` once the pipeline is over: a pass threw,
     * or the api pass has run; `ok` then says whether it ends in a result.
     */
    method Stage(env: Env, hs: Handlers, d: GlobalData, decode: string -> string, k: nat, ctx: Ctx, ghost goal: Run)
      returns (more: bool, ok: bool, c: Ctx)
      requires k < StageCount && RunFrom(env, hs, d, k, message, ctx) == goal
      modifies this
      ensures more ==> RunFrom(env, hs, d, k + 1, message, c) == goal
      ensures !more ==> ok == goal.Ok? && c == goal.ctx && (ok ==> message == goal.buf)
    {
      more, ok, c := true, true, ctx;
      match StageAt(k) {
        case GlobalStage =>
          GlobalStep(env, hs, d, decode, k, c, goal);
        case PassStage(mode, rwe, table) =>
          ok, c := Pass(env, hs, d, k, mode, rwe, table, c, goal);
          more := ok;
        case LocalStage =>
          LocalStep(env, hs, d, k, c, goal);
        case ApiStage =>
          ok := ApiStep(env, hs, d, k, c, goal);
          more := false;
      }
    }

    /** `global`, the first stage of the pipeline; what it returns is not used. */
    method GlobalStep(env: Env, hs: Handlers, d: GlobalData, decode: string -> string, ghost k: nat, ctx: Ctx, ghost goal: Run)
      requires k < StageCount && StageAt(k) == GlobalStage && RunFrom(env, hs, d, k, message, ctx) == goal
      modifies this
      ensures RunFrom(env, hs, d, k + 1, message, ctx) == goal
    {
      ghost var b := message;
      var _ := Global(d, decode);
      StageOk(env, hs, d, k, b, ctx, message, ctx);
    }

    /** The local replaces. */
    method LocalStep(env: Env, hs: Handlers, d: GlobalData, ghost k: nat, ctx: Ctx, ghost goal: Run)
      requires k < StageCount && StageAt(k) == LocalStage && RunFrom(env, hs, d, k, message, ctx) == goal
      modifies this
      ensures RunFrom(env, hs, d, k + 1, message, ctx) == goal
    {
      ghost var b := message;
      LocalReplaces(env, ctx.attr);
      StageOk(env, hs, d, k, b, ctx, message, ctx);
    }

    /** The api pass, the last stage of the pipeline. */
    method ApiStep(env: Env, hs: Handlers, d: GlobalData, ghost k: nat, ctx: Ctx, ghost goal: Run) returns (ok: bool)
      requires k < StageCount && StageAt(k) == ApiStage && RunFrom(env, hs, d, k, message, ctx) == goal
      modifies this
      ensures ok == goal.Ok? && goal.ctx == ctx && (ok ==> message == goal.buf)
    {
      ghost var b := message;
      ok := ParseMessageApi(env.fetch, env.notAvailable);
      if ok {
        StageOk(env, hs, d, k, b, ctx, message, ctx);
        assert RunFrom(env, hs, d, k + 1, message, ctx) == Ok(message, ctx);
      } else {
        StageRejected(env, hs, d, k, b, ctx, ctx);
      }
    }

    /** The pass at index `k` of the pipeline, run on the buffer. */
    method Pass(env: Env, hs: Handlers, d: GlobalData, ghost k: nat, mode: Mode, rwe: bool, table: seq<Resolver>, ctx: Ctx, ghost goal: Run)
      returns (ok: bool, c: Ctx)
      requires k < StageCount && StageAt(k) == PassStage(mode, rwe, table)
      requires RunFrom(env, hs, d, k, message, ctx) == goal
      modifies this
      ensures ok ==> RunFrom(env, hs, d, k + 1, message, c) == goal
      ensures !ok ==> goal == Rejected(c)
    {
      ghost var b := message;
      ok, c := ParseMessagePass(env, hs, mode, rwe, table, ctx);
      if ok {
        StageOk(env, hs, d, k, b, ctx, message, c);
      } else {
        StageRejected(env, hs, d, k, b, ctx, c);
      }
    }

    /** `_.each(ids, …)`: the path is indexed one segment after another; `Threw` when it hits `undefined` or `null`. */
    static method FollowPath(data: Json.Json, ids: seq<string>) returns (w: Api.Step)
      ensures w == Api.Walk(Some(data), ids)
    {
      var path: Option<Json.Json> := Some(data);
      var i := 0;
      while i < |ids|
        invariant 0 <= i <= |ids|
        invariant Api.Walk(path, ids[i..]) == Api.Walk(Some(data), ids)
      {
        assert ids[i..][0] == ids[i] && ids[i..][1..] == ids[i + 1..];
        var step := Index(path, ids[i]);
        if step.Threw? {
          return Api.Threw;
        }
        path := step.v;
        i := i + 1;
      }
      assert ids[i..] == [];
      w := Api.Reached(path);
    }

    /** `path[name][index]` for a segment `name[index]`, `path[id]` for any other. */
    static method Index(path: Option<Json.Json>, id: string) returns (r: Api.Step)
      ensures r == Api.SegmentStep(path, id)
    {
      match Api.IndexedSegment(id)
      case Some((name, index)) =>
        var q := Api.GetStep(path, name);
        if q.Threw? {
          return Api.Threw;
        }
        r := Api.GetStep(q.v, index);
      case None =>
        r := Api.GetStep(path, id);
    }
  }

  /** A stage that goes through hands its buffer and context on to the stages after it. */
  lemma StageOk(env: Env, hs: Handlers, d: GlobalData, k: nat, buf: string, ctx: Ctx, b: string, c: Ctx)
    requires k < StageCount && RunStage(env, hs, d, StageAt(k), buf, ctx) == Ok(b, c)
    ensures RunFrom(env, hs, d, k, buf, ctx) == RunFrom(env, hs, d, k + 1, b, c)
  {
  }

  /** A stage that rejects ends the whole run with its context. */
  lemma StageRejected(env: Env, hs: Handlers, d: GlobalData, k: nat, buf: string, ctx: Ctx, c: Ctx)
    requires k < StageCount && RunStage(env, hs, d, StageAt(k), buf, ctx) == Rejected(c)
    ensures RunFrom(env, hs, d, k, buf, ctx) == Rejected(c)
  {
  }
}
