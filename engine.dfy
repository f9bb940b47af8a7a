/**
 * What `Message.parse` does to its buffer, stated as functions: the pass runners, the
 * literal replacements of `global` and of the call's attributes, and the fixed order of
 * the pipeline. The class in `message.dfy` performs the same steps in place and is
 * proved to end where these functions say.
 */
module Engine {
  import opened Wrappers
  import opened JsString
  import opened Values
  import opened Matcher
  import opened Resolvers
  import Api

  /** Where a pass (or the whole parse) ends: a buffer, or a rejection from a throwing resolver. */
  datatype Run = Ok(buf: string, ctx: Ctx) | Rejected(ctx: Ctx)

  // ---------------------------------------------------------------- one replacement

  /** A trimmed text: no white space at either end. */
  predicate Trimmed(s: string) {
    s == [] || (!IsWhite(s[0]) && !IsWhite(s[|s| - 1]))
  }

  /**
   * How a runner puts the value resolved for match `m` into the buffer, `None` when that
   * throws. An empty-looking value first clears the whole buffer (the each and variables
   * runners when `rwe`, the remove-when-empty flag, is set; always for the eval runner);
   * the online runner clears the buffer for a falsy value and deletes the match for a
   * truthy one; everything else replaces the first occurrence of the match. The result is
   * always trimmed.
   */
  function Splice(mode: Mode, rwe: bool, buf: string, m: string, v: Value): (r: Option<string>)
    ensures r.None? <==> mode == Eval && v.Null?
    ensures r.Some? ==> Trimmed(r.value)
    ensures mode == Online && !Truthy(v) ==> r == Some("")
    ensures mode == Online && Truthy(v) ==> r == Some(Trim(ReplaceFirst(buf, m, "")))
    ensures (mode == Each || mode == Variables) && rwe && IsNilOrEmpty(v) && m != [] ==> r == Some("")
    ensures (mode == Each || mode == Variables) && !(rwe && IsNilOrEmpty(v)) ==> r == Some(Trim(ReplaceFirst(buf, m, ToStr(v))))
    ensures mode == Command ==> r == Some(Trim(ReplaceFirst(buf, m, ToStr(v))))
    ensures mode == Eval && (v.Undefined? || v == Str("")) && m != [] ==> r == Some("")
    ensures mode == Eval && !v.Null? && !v.Undefined? && v != Str("") ==> r == Some(Trim(ReplaceFirst(buf, m, ToStr(v))))
  {
    match mode
    case Online => Some(if Truthy(v) then Trim(ReplaceFirst(buf, m, "")) else "")
    case Command => Some(Trim(ReplaceFirst(buf, m, ToStr(v))))
    case Eval =>
      // `newString.length` throws for `null`.
      if v.Null? then None
      else if (v.Undefined? || v == Str("")) && m != [] then ReplaceFirstInEmpty(m, ToStr(v)); Some("")
      else Some(Trim(ReplaceFirst(if v.Undefined? || v == Str("") then "" else buf, m, ToStr(v))))
    case _ =>
      if rwe && IsNilOrEmpty(v) && m != [] then ReplaceFirstInEmpty(m, ToStr(v)); Some("")
      else Some(Trim(ReplaceFirst(if rwe && IsNilOrEmpty(v) then "" else buf, m, ToStr(v))))
  }

  /** A cleared buffer stays cleared, whatever is spliced into it. */
  lemma SpliceCleared(mode: Mode, rwe: bool, m: string, v: Value)
    requires m != []
    ensures Splice(mode, rwe, "", m, v).Some? ==> Splice(mode, rwe, "", m, v) == Some("")
  {
    ReplaceFirstInEmpty(m, ToStr(v));
    ReplaceFirstInEmpty(m, "");
  }

  // ---------------------------------------------------------------- the runners

  /** A resolver as the function a runner calls: matched text and context in, outcome and context out. */
  type Handler = (string, Ctx) -> Resolved

  function HandlerOf(env: Env, r: Resolver): (f: Handler)
  {
    (m: string, c: Ctx) => Resolve(env, r, m, c)
  }

  /** The filters a runner is handed: the function that resolves each kind of token. */
  type Handlers = Resolver -> Handler

  /** The filters `parse` builds from its environment. */
  function ResolverTable(env: Env): (hs: Handlers) {
    (r: Resolver) => HandlerOf(env, r)
  }

  /** The matches of one key, handled in order; each resolver call sees the previous one's `Ctx`. */
  function RunMatches(mode: Mode, rwe: bool, f: Handler, ms: seq<string>, buf: string, ctx: Ctx): Run
    decreases |ms|
  {
    if ms == [] then Ok(buf, ctx)
    else
      var res := f(ms[0], ctx);
      match res.out
      case Throw => Rejected(res.ctx)
      case Return(v) =>
        match Splice(mode, rwe, buf, ms[0], v)
        case None => Rejected(res.ctx)
        case Some(b) => RunMatches(mode, rwe, f, ms[1..], b, res.ctx)
  }

  /** The keys of a table in order: each key's matches are listed once, on the buffer as it is then. */
  function RunKeys(env: Env, hs: Handlers, mode: Mode, rwe: bool, table: seq<Resolver>, buf: string, ctx: Ctx): Run
    decreases |table|
  {
    if table == [] then Ok(buf, ctx)
    else
      var ms := MatchAll(env.rx, Key(table[0]), mode, buf);
      match RunMatches(mode, rwe, hs(table[0]), ms, buf, ctx)
      case Rejected(c) => Rejected(c)
      case Ok(b, c) => RunKeys(env, hs, mode, rwe, table[1..], b, c)
  }

  /** A runner: nothing happens to a buffer that trims to nothing. */
  function RunPass(env: Env, hs: Handlers, mode: Mode, rwe: bool, table: seq<Resolver>, buf: string, ctx: Ctx): (r: Run)
    ensures IsBlank(buf) ==> r == Ok(buf, ctx)
  {
    if IsBlank(buf) then Ok(buf, ctx) else RunKeys(env, hs, mode, rwe, table, buf, ctx)
  }

  /** A match that resolves to `v` and splices to `b` hands `b` on to the next match. */
  lemma MatchStep(mode: Mode, rwe: bool, f: Handler, ms: seq<string>, buf: string, ctx: Ctx, v: Value, c: Ctx, b: string)
    requires ms != [] && f(ms[0], ctx) == Resolved(Return(v), c) && Splice(mode, rwe, buf, ms[0], v) == Some(b)
    ensures RunMatches(mode, rwe, f, ms, buf, ctx) == RunMatches(mode, rwe, f, ms[1..], b, c)
  {
  }

  /** A key whose matches all go through hands the buffer they leave on to the next key. */
  lemma KeysStep(env: Env, hs: Handlers, mode: Mode, rwe: bool, table: seq<Resolver>, buf: string, ctx: Ctx, b: string, c: Ctx)
    requires table != []
    requires RunMatches(mode, rwe, hs(table[0]), MatchAll(env.rx, Key(table[0]), mode, buf), buf, ctx) == Ok(b, c)
    ensures RunKeys(env, hs, mode, rwe, table, buf, ctx) == RunKeys(env, hs, mode, rwe, table[1..], b, c)
  {
  }

  /** A key one of whose matches throws ends the runner with that rejection. */
  lemma KeysRejected(env: Env, hs: Handlers, mode: Mode, rwe: bool, table: seq<Resolver>, buf: string, ctx: Ctx)
    requires table != []
    requires RunMatches(mode, rwe, hs(table[0]), MatchAll(env.rx, Key(table[0]), mode, buf), buf, ctx).Rejected?
    ensures RunKeys(env, hs, mode, rwe, table, buf, ctx)
      == RunMatches(mode, rwe, hs(table[0]), MatchAll(env.rx, Key(table[0]), mode, buf), buf, ctx)
  {
  }

  /** One match handled on an empty buffer: a rejection, or the rest of the matches on an empty buffer. */
  lemma ClearedStep(mode: Mode, rwe: bool, f: Handler, ms: seq<string>, ctx: Ctx)
    requires ms != [] && ms[0] != []
    ensures var res := f(ms[0], ctx);
      RunMatches(mode, rwe, f, ms, "", ctx) == Rejected(res.ctx) ||
      RunMatches(mode, rwe, f, ms, "", ctx) == RunMatches(mode, rwe, f, ms[1..], "", res.ctx)
  {
    var res := f(ms[0], ctx);
    if res.out.Return? {
      SpliceCleared(mode, rwe, ms[0], res.out.v);
    }
  }

  /** Once the buffer is empty, the rest of a key's matches leave it empty. */
  lemma {:induction false} ClearedMatches(mode: Mode, rwe: bool, f: Handler, ms: seq<string>, ctx: Ctx)
    requires forall k :: 0 <= k < |ms| ==> ms[k] != []
    ensures RunMatches(mode, rwe, f, ms, "", ctx).Ok? ==> RunMatches(mode, rwe, f, ms, "", ctx).buf == ""
    decreases |ms|
  {
    if ms != [] {
      var rest := ms[1..];
      assert forall k :: 0 <= k < |rest| ==> rest[k] == ms[k + 1];
      ClearedMatches(mode, rwe, f, rest, f(ms[0], ctx).ctx);
      ClearedStep(mode, rwe, f, ms, ctx);
    }
  }

  /** Once the buffer is empty, the rest of the pass leaves it empty. */
  lemma {:induction false} ClearedKeys(env: Env, hs: Handlers, mode: Mode, rwe: bool, table: seq<Resolver>, ctx: Ctx)
    ensures RunKeys(env, hs, mode, rwe, table, "", ctx).Ok? ==> RunKeys(env, hs, mode, rwe, table, "", ctx).buf == ""
    decreases |table|
  {
    if table != [] {
      var ms := MatchAll(env.rx, Key(table[0]), mode, "");
      var f := hs(table[0]);
      ClearedMatches(mode, rwe, f, ms, ctx);
      match RunMatches(mode, rwe, f, ms, "", ctx)
      case Rejected(_) =>
      case Ok(b, c) => ClearedKeys(env, hs, mode, rwe, table[1..], c);
    }
  }

  /**
   * The remove-when-empty rule: in the each and variables runners with the flag set, a
   * match whose value is `null`, `undefined` or `''` clears the whole message, and the
   * rest of the key's matches cannot bring anything back.
   */
  lemma EmptyResultClears(mode: Mode, f: Handler, ms: seq<string>, buf: string, ctx: Ctx)
    requires mode == Each || mode == Variables
    requires ms != [] && forall k :: 0 <= k < |ms| ==> ms[k] != []
    requires var o := f(ms[0], ctx).out; o.Return? && IsNilOrEmpty(o.v)
    ensures var run := RunMatches(mode, true, f, ms, buf, ctx); run.Ok? ==> run.buf == ""
  {
    var res := f(ms[0], ctx);
    assert Splice(mode, true, buf, ms[0], res.out.v) == Some("");
    ClearedMatches(mode, true, f, ms[1..], res.ctx);
  }

  /** `$!!_name` shows nothing into a removing runner, so its first match clears the message for good. */
  lemma {:induction false} SilentVarClears(env: Env, ms: seq<string>, buf: string, ctx: Ctx)
    requires ctx.attr.Some?
    requires ms != [] && forall k :: 0 <= k < |ms| ==> ms[k] != []
    ensures var run := RunMatches(Variables, true, HandlerOf(env, SilentVar), ms, buf, ctx); run.Ok? && run.buf == ""
    decreases |ms|
  {
    var res := Resolve(env, SilentVar, ms[0], ctx);
    assert Splice(Variables, true, buf, ms[0], res.out.v) == Some("");
    if |ms| > 1 {
      SilentVarClears(env, ms[1..], "", res.ctx);
    }
  }

  /** `$param` without an argument shows nothing into a removing runner, so it clears the message. */
  lemma {:induction false} MissingParamClears(env: Env, ms: seq<string>, buf: string, ctx: Ctx)
    requires ctx.attr.Some? && !HasParam(ctx.attr.value)
    requires ms != [] && forall k :: 0 <= k < |ms| ==> ms[k] != []
    ensures RunMatches(Each, true, HandlerOf(env, Param), ms, buf, ctx) == Ok("", ctx)
    decreases |ms|
  {
    var f := HandlerOf(env, Param);
    assert f(ms[0], ctx) == Resolved(Return(Str("")), ctx);
    assert Splice(Each, true, buf, ms[0], Str("")) == Some("");
    MatchStep(Each, true, f, ms, buf, ctx, Str(""), ctx, "");
    if |ms| > 1 {
      MissingParamClears(env, ms[1..], "", ctx);
    }
  }

  /** The online runner on an empty buffer: it stays empty and nothing else changes. */
  lemma {:induction false} OnlineOnCleared(env: Env, r: Resolver, ms: seq<string>, ctx: Ctx)
    requires r == OnlineOnly || r == OfflineOnly
    requires forall k :: 0 <= k < |ms| ==> ms[k] != []
    ensures RunMatches(Online, true, HandlerOf(env, r), ms, "", ctx) == Ok("", ctx)
    decreases |ms|
  {
    if ms != [] {
      var v := Resolve(env, r, ms[0], ctx).out.v;
      SpliceCleared(Online, true, ms[0], v);
      OnlineOnCleared(env, r, ms[1..], ctx);
    }
  }

  /** The online gate: an `(onlineonly)` while the stream is offline empties the message. */
  lemma OnlineOnlyWhenOffline(env: Env, buf: string, ctx: Ctx)
    requires !env.isStreamOnline && !IsBlank(buf) && Contains(buf, "(onlineonly)")
    ensures RunPass(env, ResolverTable(env), Online, true, OnlineTable, buf, ctx) == Ok("", ctx)
  {
    OnlineKeyShut(env, buf, ctx);
    GateTail(env, ResolverTable(env), OnlineTable, buf, ctx);
  }

  /** While the stream is offline, the `(onlineonly)` key empties the buffer. */
  lemma OnlineKeyShut(env: Env, buf: string, ctx: Ctx)
    requires !env.isStreamOnline && Contains(buf, "(onlineonly)")
    ensures RunMatches(Online, true, ResolverTable(env)(OnlineTable[0]),
      MatchAll(env.rx, Key(OnlineTable[0]), Online, buf), buf, ctx) == Ok("", ctx)
  {
    var ms := MatchAll(env.rx, "(onlineonly)", Online, buf);
    assert ResolverTable(env)(OnlineOnly) == HandlerOf(env, OnlineOnly);
    assert ms != [] by { LiteralKeyFound(env.rx, "(onlineonly)", Online, buf); }
    assert OnlineTable[0] == OnlineOnly && Key(OnlineOnly) == "(onlineonly)";
    GateStep(env, OnlineOnly, ms, buf, ctx);
  }

  /** A gate that is shut empties the buffer at its first match and keeps it empty. */
  lemma GateStep(env: Env, r: Resolver, ms: seq<string>, buf: string, ctx: Ctx)
    requires (r == OnlineOnly && !env.isStreamOnline) || (r == OfflineOnly && env.isStreamOnline)
    requires ms != [] && forall k :: 0 <= k < |ms| ==> ms[k] != []
    ensures RunMatches(Online, true, HandlerOf(env, r), ms, buf, ctx) == Ok("", ctx)
  {
    var f := HandlerOf(env, r);
    assert f(ms[0], ctx) == Resolved(Return(Bool(false)), ctx);
    MatchStep(Online, true, f, ms, buf, ctx, Bool(false), ctx, "");
    OnlineOnCleared(env, r, ms[1..], ctx);
  }

  /** The online table: once its first key has emptied the buffer, the second changes nothing. */
  lemma GateTail(env: Env, hs: Handlers, table: seq<Resolver>, buf: string, ctx: Ctx)
    requires table == OnlineTable && !IsBlank(buf)
    requires RunMatches(Online, true, hs(table[0]), MatchAll(env.rx, Key(table[0]), Online, buf), buf, ctx) == Ok("", ctx)
    ensures RunPass(env, hs, Online, true, table, buf, ctx) == Ok("", ctx)
  {
    KeysStep(env, hs, Online, true, table, buf, ctx, "", ctx);
    KeysAbsent(env, hs, Online, true, table[1..], "", ctx);
  }

  /**
   * The online gate: an `(offlineonly)` while the stream is online empties the message,
   * whatever `(onlineonly)` tokens it holds besides.
   */
  lemma OfflineOnlyWhenOnline(env: Env, buf: string, ctx: Ctx)
    requires env.isStreamOnline && !IsBlank(buf) && Contains(buf, "(offlineonly)")
    ensures RunPass(env, ResolverTable(env), Online, true, OnlineTable, buf, ctx) == Ok("", ctx)
  {
    var b := OnlineKeyDeletes(env, buf, ctx);
    OfflineKeyShut(env, b, ctx);
  }

  /** While online, the `(onlineonly)` key keeps the context and an `(offlineonly)` for the second key. */
  lemma OnlineKeyDeletes(env: Env, buf: string, ctx: Ctx) returns (b: string)
    requires env.isStreamOnline && Contains(buf, "(offlineonly)")
    ensures Contains(b, "(offlineonly)")
    ensures RunKeys(env, ResolverTable(env), Online, true, OnlineTable, buf, ctx)
      == RunKeys(env, ResolverTable(env), Online, true, [OfflineOnly], b, ctx)
  {
    b := OnlineKeyRuns(env, buf, ctx);
    assert OnlineTable[1..] == [OfflineOnly];
    KeysStep(env, ResolverTable(env), Online, true, OnlineTable, buf, ctx, b, ctx);
  }

  /** While online, the matches of the `(onlineonly)` key go through, keeping the context and an `(offlineonly)`. */
  lemma OnlineKeyRuns(env: Env, buf: string, ctx: Ctx) returns (b: string)
    requires env.isStreamOnline && Contains(buf, "(offlineonly)")
    ensures Contains(b, "(offlineonly)")
    ensures RunMatches(Online, true, ResolverTable(env)(OnlineTable[0]),
      MatchAll(env.rx, Key(OnlineTable[0]), Online, buf), buf, ctx) == Ok(b, ctx)
  {
    var f := ResolverTable(env)(OnlineTable[0]);
    OnlineHandlerTrue(env);
    assert Key(OnlineTable[0]) == "(onlineonly)";
    var ms := MatchAll(env.rx, Key(OnlineTable[0]), Online, buf);
    assert '#' !in "(onlineonly)";
    assert forall k :: 0 <= k < |ms| ==> ms[k] == "(onlineonly)";
    assert forall c :: f("(onlineonly)", c) == Resolved(Return(Bool(true)), c);
    b := OnlineMatchesKeep(f, ms, buf, ctx);
  }

  /** While online, the `(onlineonly)` handler answers `true` and keeps the context. */
  lemma OnlineHandlerTrue(env: Env)
    requires env.isStreamOnline
    ensures forall c :: ResolverTable(env)(OnlineTable[0])("(onlineonly)", c) == Resolved(Return(Bool(true)), c)
  {
    assert OnlineTable[0] == OnlineOnly;
    forall c ensures ResolverTable(env)(OnlineOnly)("(onlineonly)", c) == Resolved(Return(Bool(true)), c) {
      assert ResolverTable(env)(OnlineOnly)("(onlineonly)", c) == Resolve(env, OnlineOnly, "(onlineonly)", c);
    }
  }

  /**
   * A handler that answers `true` to every `(onlineonly)` deletes each match, and an
   * `(offlineonly)` in the buffer survives the deletions and the trimming.
   */
  lemma {:induction false} OnlineMatchesKeep(f: Handler, ms: seq<string>, buf: string, ctx: Ctx) returns (b: string)
    requires forall c :: f("(onlineonly)", c) == Resolved(Return(Bool(true)), c)
    requires Contains(buf, "(offlineonly)")
    requires forall k :: 0 <= k < |ms| ==> ms[k] == "(onlineonly)"
    ensures RunMatches(Online, true, f, ms, buf, ctx) == Ok(b, ctx) && Contains(b, "(offlineonly)")
    decreases |ms|
  {
    if ms == [] {
      b := buf;
    } else {
      var next := Trim(ReplaceFirst(buf, "(onlineonly)", ""));
      assert f(ms[0], ctx) == Resolved(Return(Bool(true)), ctx);
      OnlineStep(f, ms, buf, ctx);
      OfflineTokenKept(buf);
      assert forall k :: 0 <= k < |ms| - 1 ==> ms[1..][k] == ms[k + 1];
      b := OnlineMatchesKeep(f, ms[1..], next, ctx);
    }
  }

  /** A handler that answers `true` to an `(onlineonly)` match deletes it and trims the buffer. */
  lemma OnlineStep(f: Handler, ms: seq<string>, buf: string, ctx: Ctx)
    requires ms != [] && f(ms[0], ctx) == Resolved(Return(Bool(true)), ctx)
    ensures RunMatches(Online, true, f, ms, buf, ctx) == RunMatches(Online, true, f, ms[1..], Trim(ReplaceFirst(buf, ms[0], "")), ctx)
  {
    SpliceTruthy(buf, ms[0]);
    MatchStep(Online, true, f, ms, buf, ctx, Bool(true), ctx, Trim(ReplaceFirst(buf, ms[0], "")));
  }

  lemma SpliceTruthy(buf: string, m: string)
    ensures Splice(Online, true, buf, m, Bool(true)) == Some(Trim(ReplaceFirst(buf, m, "")))
  {
    assert Truthy(Bool(true));
  }

  /** Deleting an `(onlineonly)` and trimming keeps an `(offlineonly)`. */
  lemma OfflineTokenKept(buf: string)
    requires Contains(buf, "(offlineonly)")
    ensures Contains(Trim(ReplaceFirst(buf, "(onlineonly)", "")), "(offlineonly)")
  {
    var m, p := "(onlineonly)", "(offlineonly)";
    assert m[2] == 'n' && p[2] == 'f';
    DeleteKeepsOccurrence(buf, m, p, 2);
  }

  /** While the stream is online, an `(offlineonly)` key empties the buffer. */
  lemma OfflineKeyShut(env: Env, buf: string, ctx: Ctx)
    requires env.isStreamOnline && Contains(buf, "(offlineonly)")
    ensures RunKeys(env, ResolverTable(env), Online, true, [OfflineOnly], buf, ctx) == Ok("", ctx)
  {
    var t := [OfflineOnly];
    assert ResolverTable(env)(OfflineOnly) == HandlerOf(env, OfflineOnly);
    assert t[0] == OfflineOnly && Key(t[0]) == "(offlineonly)";
    var ms := MatchAll(env.rx, "(offlineonly)", Online, buf);
    assert ms != [] by { LiteralKeyFound(env.rx, "(offlineonly)", Online, buf); }
    assert RunMatches(Online, true, HandlerOf(env, OfflineOnly), ms, buf, ctx) == Ok("", ctx) by {
      GateStep(env, OfflineOnly, ms, buf, ctx);
    }
    KeysStep(env, ResolverTable(env), Online, true, t, buf, ctx, "", ctx);
  }

  /** Without an `(onlineonly)` the first key of the online table changes nothing. */
  lemma OnlineKeyAbsent(env: Env, hs: Handlers, buf: string, ctx: Ctx)
    requires !Contains(buf, "(onlineonly)")
    ensures RunKeys(env, hs, Online, true, OnlineTable, buf, ctx) == RunKeys(env, hs, Online, true, [OfflineOnly], buf, ctx)
  {
    LiteralMatchesOccur(buf, "(onlineonly)", 0);
    var t := OnlineTable;
    assert t[0] == OnlineOnly && Key(t[0]) == "(onlineonly)" && t[1..] == [OfflineOnly];
    assert MatchAll(env.rx, Key(t[0]), Online, buf) == [];
    KeysStep(env, hs, Online, true, t, buf, ctx, buf, ctx);
  }

  /** A table none of whose keys' first characters occurs in the buffer changes nothing. */
  lemma {:induction false} KeysAbsent(env: Env, hs: Handlers, mode: Mode, rwe: bool, table: seq<Resolver>, buf: string, ctx: Ctx)
    requires forall k :: 0 <= k < |table| ==> Key(table[k])[0] !in buf
    ensures RunKeys(env, hs, mode, rwe, table, buf, ctx) == Ok(buf, ctx)
    decreases |table|
  {
    if table != [] {
      NoMatchWithoutHead(env.rx, Key(table[0]), mode, buf);
      assert forall k :: 0 <= k < |table| - 1 ==> table[1..][k] == table[k + 1];
      KeysAbsent(env, hs, mode, rwe, table[1..], buf, ctx);
    }
  }

  // ---------------------------------------------------------------- literal replacements

  /** Literal patterns, each with the text that replaces all its occurrences, applied in order. */
  predicate Patterns(steps: seq<(string, string)>) {
    forall k :: 0 <= k < |steps| ==> steps[k].0 != []
  }

  function ReplaceSeq(buf: string, steps: seq<(string, string)>): string
    requires Patterns(steps)
    decreases |steps|
  {
    if steps == [] then buf
    else ReplaceSeq(ReplaceAll(buf, [steps[0].0], steps[0].1), steps[1..])
  }

  /** Replacements whose patterns all start with a character the text lacks change nothing. */
  lemma {:induction false} ReplaceSeqAbsent(buf: string, steps: seq<(string, string)>, c: char)
    requires Patterns(steps) && c !in buf
    requires forall k :: 0 <= k < |steps| ==> steps[k].0[0] == c
    ensures ReplaceSeq(buf, steps) == buf
    decreases |steps|
  {
    if steps != [] {
      AbsentHead(buf, steps[0].0, c);
      ReplaceAllNoMatch(buf, [steps[0].0], steps[0].1);
      ReplaceSeqAbsent(buf, steps[1..], c);
    }
  }

  /** The entries of `attr`, in the order the model fixes for `Object.entries`. */
  function Entries(env: Env, a: Attr): seq<(string, string)> {
    [("sender", At(env) + a.sender)] +
    (match a.param case Some(p) => [("param", p)] case None => []) +
    (match a.cmd case Some(c) => [("cmd", c)] case None => []) +
    (match a.quiet case Some(q) => [("quiet", if q then "true" else "false")] case None => []) +
    a.extra
  }

  /** The entries as replacements of `$key` by the entry's text. */
  function LocalSteps(entries: seq<(string, string)>): (steps: seq<(string, string)>)
    ensures |steps| == |entries| && Patterns(steps)
    ensures forall k :: 0 <= k < |steps| ==> steps[k] == ("$" + entries[k].0, entries[k].1)
  {
    seq(|entries|, k requires 0 <= k < |entries| => ("$" + entries[k].0, entries[k].1))
  }

  /** The local replaces: without `attr` nothing happens. */
  function LocalSubst(env: Env, attr: Option<Attr>, buf: string): (r: string)
    ensures attr.None? ==> r == buf
  {
    match attr
    case None => buf
    case Some(a) => ReplaceSeq(buf, LocalSteps(Entries(env, a)))
  }

  /** The local replaces leave a text without `$` alone. */
  lemma LocalPlain(env: Env, attr: Option<Attr>, buf: string)
    requires '$' !in buf
    ensures LocalSubst(env, attr, buf) == buf
  {
    if attr.Some? {
      ReplaceSeqAbsent(buf, LocalSteps(Entries(env, attr.value)), '$');
    }
  }

  // ---------------------------------------------------------------- `global`

  datatype Stats = Stats(game: Value, viewers: Value, views: Value, followers: Value, hosts: Value,
                         subscribers: Value, bits: Value, title: Value)
  /** The latest tip event; `amount` is the text of `parseFloat(amount).toFixed(2)`. */
  datatype Tip = Tip(username: string, amount: string, currency: string, message: string)
  /** The latest cheer event; `amount` is the stored text that `parseInt` reads. */
  datatype Cheer = Cheer(username: string, amount: string, message: string)
  datatype Song = Song(song: string, artist: string, isPlaying: bool, isEnabled: bool)

  /** What `global` reads: the stream statistics, the event list, the song integrations. */
  datatype GlobalData = GlobalData(
    stats: Stats,
    version: Option<string>,       // `npm_package_version`
    shortHash: string,             // the commit hash, `''` when unknown
    latestFollower: Option<string>,
    latestSubscriber: Option<string>,
    latestTip: Option<Tip>,
    latestCheer: Option<Cheer>,
    spotifySong: Option<Song>,     // `None` for an empty current song
    spotifyFormat: string,
    songsEnabled: bool,
    youtubePlaying: bool,          // some entry of `songs.isPlaying` is set
    youtubeTitle: Option<string>,  // the `title` of the current song, if it has one
    notPlaying: string)            // the translated `songs.not-playing`

  function VersionText(d: GlobalData): string {
    ReplaceFirst(d.version.GetOr("x.y.z"), "SNAPSHOT", if d.shortHash != "" then d.shortHash else "SNAPSHOT")
  }

  function Event<T>(e: Option<T>, f: T -> string): string {
    match e case Some(x) => f(x) case None => "n/a"
  }

  function CheerAmount(c: Cheer): string {
    match ParseInt(c.amount) case Some(n) => IntToString(n) case None => "NaN"
  }

  function SpotifyText(d: GlobalData): string {
    match d.spotifySong
    case Some(s) =>
      if s.isPlaying && s.isEnabled then ReplaceAll(ReplaceAll(d.spotifyFormat, ["$song"], s.song), ["$artist"], s.artist)
      else d.notPlaying
    case None => d.notPlaying
  }

  /** The replacements of `global` before the YouTube song, in the order they are made. */
  function GlobalSteps(d: GlobalData): (steps: seq<(string, string)>)
    ensures Patterns(steps) && forall k :: 0 <= k < |steps| ==> steps[k].0[0] == '$'
  {
    [("$game", ToStr(d.stats.game)), ("$viewers", ToStr(d.stats.viewers)), ("$views", ToStr(d.stats.views)),
     ("$followers", ToStr(d.stats.followers)), ("$hosts", ToStr(d.stats.hosts)),
     ("$subscribers", ToStr(d.stats.subscribers)), ("$bits", ToStr(d.stats.bits)), ("$title", ToStr(d.stats.title)),
     ("$version", VersionText(d)),
     ("$latestFollower", d.latestFollower.GetOr("n/a")),
     ("$latestSubscriber", d.latestSubscriber.GetOr("n/a")),
     ("$latestTipAmount", Event(d.latestTip, (t: Tip) => t.amount)),
     ("$latestTipCurrency", Event(d.latestTip, (t: Tip) => t.currency)),
     ("$latestTipMessage", Event(d.latestTip, (t: Tip) => t.message)),
     ("$latestTip", Event(d.latestTip, (t: Tip) => t.username)),
     ("$latestCheerAmount", Event(d.latestCheer, CheerAmount)),
     ("$latestCheerMessage", Event(d.latestCheer, (c: Cheer) => c.message)),
     ("$latestCheer", Event(d.latestCheer, (c: Cheer) => c.username)),
     ("$spotifySong", SpotifyText(d))]
  }

  /** The YouTube song, decided on the buffer as the earlier replacements left it. */
  function YoutubeText(d: GlobalData, buf: string): string {
    if d.songsEnabled && Contains(buf, "$ytSong") && d.youtubePlaying then d.youtubeTitle.GetOr(d.notPlaying)
    else d.notPlaying
  }

  /** The buffer after `global`. */
  function GlobalText(d: GlobalData, buf: string): string {
    var b := ReplaceSeq(buf, GlobalSteps(d));
    ReplaceAll(b, ["$ytSong"], YoutubeText(d, b))
  }

  /** `global` leaves a text without `$` alone. */
  lemma GlobalPlain(d: GlobalData, buf: string)
    requires '$' !in buf
    ensures GlobalText(d, buf) == buf
  {
    ReplaceSeqAbsent(buf, GlobalSteps(d), '$');
    AbsentHead(buf, "$ytSong", '$');
    ReplaceAllNoMatch(buf, ["$ytSong"], YoutubeText(d, buf));
  }

  /**
   * `$latestTipAmount` is replaced before `$latestTip`, so it shows the amount and not
   * the tipper's name followed by `Amount`.
   */
  lemma TipAmountFirst(d: GlobalData)
    requires '$' !in Event(d.latestTip, (t: Tip) => t.amount)
    ensures GlobalText(d, "$latestTipAmount") == Event(d.latestTip, (t: Tip) => t.amount)
  {
    var s := "$latestTipAmount";
    var steps := GlobalSteps(d);
    var amount := Event(d.latestTip, (t: Tip) => t.amount);
    TipPrefixSkipped(d);
    WholeReplaced(s, amount);
    assert steps[11..][0] == (s, amount) && steps[11..][1..] == steps[12..];
    assert ReplaceSeq(s, steps[11..]) == ReplaceSeq(amount, steps[12..]);
    TipSuffixSkipped(d, amount);
  }

  /** The replacements after `$latestTipAmount`, and the YouTube song, leave a text without `$` alone. */
  lemma TipSuffixSkipped(d: GlobalData, amount: string)
    requires '$' !in amount
    ensures var b := ReplaceSeq(amount, GlobalSteps(d)[12..]); b == amount && ReplaceAll(b, ["$ytSong"], YoutubeText(d, b)) == amount
  {
    var steps := GlobalSteps(d);
    assert forall k :: 0 <= k < |steps[12..]| ==> steps[12..][k].0[0] == '$';
    ReplaceSeqAbsent(amount, steps[12..], '$');
    AbsentHead(amount, "$ytSong", '$');
    ReplaceAllNoMatch(amount, ["$ytSong"], YoutubeText(d, amount));
  }

  /** The eleven replacements before `$latestTipAmount` leave that text alone. */
  lemma TipPrefixSkipped(d: GlobalData)
    ensures ReplaceSeq("$latestTipAmount", GlobalSteps(d)) == ReplaceSeq("$latestTipAmount", GlobalSteps(d)[11..])
  {
    var steps := GlobalSteps(d);
    forall k | 0 <= k < 11 ensures ReplaceAll("$latestTipAmount", [steps[k].0], steps[k].1) == "$latestTipAmount" {
      NotTipAmount(steps[k].0, steps[k].1);
    }
    SkipSteps("$latestTipAmount", steps, 11);
  }

  /** A text made of one occurrence of the pattern becomes the replacement, when that has no `$`. */
  lemma WholeReplaced(s: string, v: string)
    requires s != [] && '$' !in v
    ensures ReplaceAll(s, [s], v) == v
  {
    assert OccursAt(s, s, 0);
    assert FirstAltAt(s, [s], 0) == Some(s);
    SubstitutePlain(v, s, "", "");
    assert ReplaceAllFrom(s, [s], v, |s|) == [];
    assert s[..0] == "" && s[|s|..] == "";
  }

  /** A `$` pattern that differs from `$latestTipAmount` at its second or eighth character does not occur in it. */
  lemma NotTipAmount(p: string, v: string)
    requires |p| >= 2 && p[0] == '$' && (p[1] != 'l' || (|p| >= 8 && p[7] != 'T'))
    ensures ReplaceAll("$latestTipAmount", [p], v) == "$latestTipAmount"
  {
    var s := "$latestTipAmount";
    forall j | 0 <= j < |s| ensures !OccursAt(s, p, j) {
      if j + |p| <= |s| && j > 0 {
        assert s[j..j + |p|][0] == s[j];
      } else if j + |p| <= |s| {
        assert s[j..j + |p|][1] == s[1];
        if p[1] == 'l' {
          assert s[j..j + |p|][7] == s[7];
        }
      }
    }
    ReplaceAllNoMatch(s, [p], v);
  }

  /** Replacements that leave the text unchanged can be skipped. */
  lemma {:induction false} SkipSteps(s: string, steps: seq<(string, string)>, n: nat)
    requires Patterns(steps) && n <= |steps|
    requires forall k :: 0 <= k < n ==> ReplaceAll(s, [steps[k].0], steps[k].1) == s
    ensures ReplaceSeq(s, steps) == ReplaceSeq(s, steps[n..])
    decreases n
  {
    if n > 0 {
      assert forall k :: 0 <= k < n - 1 ==> steps[1..][k] == steps[k + 1];
      SkipSteps(s, steps[1..], n - 1);
      assert steps[1..][n - 1..] == steps[n..];
    }
  }

  // ---------------------------------------------------------------- the pipeline

  datatype Stage =
    | GlobalStage
    | PassStage(mode: Mode, rwe: bool, table: seq<Resolver>)
    | LocalStage
    | ApiStage

  /** The number of stages of `parse`. */
  const StageCount: nat := 16

  /** The stage at index `k` of `parse`, in the order `parse` runs them. */
  function StageAt(k: nat): (s: Stage)
    requires k < StageCount
    ensures s == GlobalStage <==> k == 0
    ensures s == LocalStage <==> k == 8
    ensures s == ApiStage <==> k == 15
  {
    if k == 0 then GlobalStage
    else if k == 1 then PassStage(Each, true, PriceTable)
    else if k == 2 then PassStage(Each, true, InfoTable)
    else if k == 3 then PassStage(Each, true, RandomTable)
    else if k == 4 then PassStage(Each, false, IfTable)
    else if k == 5 then PassStage(Variables, true, CustomTable)
    else if k == 6 then PassStage(Eval, true, EvalTable)
    else if k == 7 then PassStage(Each, true, ParamTable)
    else if k == 8 then LocalStage
    else if k == 9 then PassStage(Each, true, MathTable)
    else if k == 10 then PassStage(Online, true, OnlineTable)
    else if k == 11 then PassStage(Command, true, CommandTable)
    else if k == 12 then PassStage(Each, false, QsTable)
    else if k == 13 then PassStage(Each, true, ListTable)
    else if k == 14 then PassStage(Each, true, StreamTable)
    else ApiStage
  }

  function RunStage(env: Env, hs: Handlers, d: GlobalData, s: Stage, buf: string, ctx: Ctx): Run {
    match s
    case GlobalStage => Ok(GlobalText(d, buf), ctx)
    case PassStage(mode, rwe, table) => RunPass(env, hs, mode, rwe, table, buf, ctx)
    case LocalStage => Ok(LocalSubst(env, ctx.attr, buf), ctx)
    case ApiStage =>
      match Api.ApiPass(env.fetch, env.notAvailable, buf)
      case Some(b) => Ok(b, ctx)
      case None => Rejected(ctx)
  }

  /** The stages of the pipeline from index `k` on, each on what the one before it left. */
  function RunFrom(env: Env, hs: Handlers, d: GlobalData, k: nat, buf: string, ctx: Ctx): Run
    requires k <= StageCount
    decreases StageCount - k
  {
    if k == StageCount then Ok(buf, ctx)
    else match RunStage(env, hs, d, StageAt(k), buf, ctx)
      case Rejected(c) => Rejected(c)
      case Ok(b, c) => RunFrom(env, hs, d, k + 1, b, c)
  }

  /** `parse(attr)` on a decoded message: resolvers start with no draws and no side effects. */
  function ParseResult(env: Env, d: GlobalData, attr: Option<Attr>, buf: string): Run {
    RunFrom(env, ResolverTable(env), d, 0, buf, Ctx(attr, 0, []))
  }

  /** One stage keeps a text with neither `$` nor `(` exactly as it is. */
  lemma StagePlain(env: Env, hs: Handlers, d: GlobalData, s: Stage, buf: string, ctx: Ctx)
    requires '$' !in buf && '(' !in buf
    ensures RunStage(env, hs, d, s, buf, ctx) == Ok(buf, ctx)
  {
    match s
    case GlobalStage => GlobalPlain(d, buf);
    case PassStage(mode, rwe, table) =>
      if !IsBlank(buf) { KeysAbsent(env, hs, mode, rwe, table, buf, ctx); }
    case LocalStage => LocalPlain(env, ctx.attr, buf);
    case ApiStage => Api.ApiPassWithoutParen(env.fetch, env.notAvailable, buf);
  }

  /** The stages from `k` on keep a text with neither `$` nor `(` exactly as it is. */
  lemma {:induction false} FromPlain(env: Env, hs: Handlers, d: GlobalData, k: nat, buf: string, ctx: Ctx)
    requires k <= StageCount && '$' !in buf && '(' !in buf
    ensures RunFrom(env, hs, d, k, buf, ctx) == Ok(buf, ctx)
    decreases StageCount - k
  {
    if k < StageCount {
      StagePlain(env, hs, d, StageAt(k), buf, ctx);
      FromPlain(env, hs, d, k + 1, buf, ctx);
    }
  }

  /** A message with no `$` and no `(` holds no token: `parse` gives it back unchanged and causes nothing. */
  lemma ParsePlain(env: Env, d: GlobalData, attr: Option<Attr>, buf: string)
    requires '$' !in buf && '(' !in buf
    ensures ParseResult(env, d, attr, buf) == Ok(buf, Ctx(attr, 0, []))
  {
    FromPlain(env, ResolverTable(env), d, 0, buf, Ctx(attr, 0, []));
  }
}
