/**
 * The resolvers of the message pipeline: each filter key of `Message.parse` and the
 * function that computes its replacement from the matched text.
 *
 * A resolver reads the call's attributes (`attr`) and the bot's collaborators (the
 * database tables, the custom-variable store, the evaluator, the random source), and it
 * can change the attributes (`$touser` rewrites `attr.param`), draw random numbers and
 * cause side effects (chat messages, variable updates, nested commands). All three are
 * threaded through a `Ctx`, so a later resolver sees what an earlier one did.
 */
module Resolvers {
  import opened Wrappers
  import opened JsString
  import opened Values
  import opened Matcher
  import Lists
  import Json

  /** The `attr` object `parse` receives. */
  datatype Attr = Attr(
    sender: string,                // `attr.sender.username`
    param: Option<string>,         // `attr.param`, `None` when it is not set
    cmd: Option<string>,           // `attr.cmd`
    quiet: Option<bool>,           // `attr.quiet`
    extra: seq<(string, string)>)  // every other attribute, in insertion order

  datatype Effect =
    | SendMessage(text: string, sender: string, quiet: bool)  // `commons.sendMessage`
    | SetVariable(name: string, value: string)                 // `customvariables.setValueOf`
    | RunCommand(text: string, sender: string, quiet: bool)    // a nested `Parser.process`

  /** What one resolver call can change and the next one sees. */
  datatype Ctx = Ctx(attr: Option<Attr>, draws: nat, effects: seq<Effect>)

  /** A resolver either returns a value or throws (and `parse` rejects). */
  datatype Outcome = Return(v: Value) | Throw
  datatype Resolved = Resolved(out: Outcome, ctx: Ctx)

  datatype Role = Anyone | Follower | Subscriber
  datatype UserRow = UserRow(username: string, userId: string, isOnline: bool, isFollower: bool, isSubscriber: bool)

  /** The answer of `customvariables.setValueOf`. */
  datatype SetState = SetState(isOk: bool, isEval: bool, setValue: string, responseType: int, responseText: string, currentValue: Value)

  datatype StreamField = StreamGame | StreamTitle | StreamViewers

  /** The bot's collaborators, as far as the resolvers consult them. */
  datatype Env = Env(
    rx: RegexOracle,
    /** The random source: the `k`-th draw of a parse. */
    random: nat -> nat,
    /** `tmi.showWithAt`. */
    showWithAt: bool,
    /** `api.stats.currentGame` and `api.stats.currentTitle`. */
    game: Value,
    title: Value,
    /** `api.isStreamOnline`. */
    isStreamOnline: bool,
    /** The user table, and the bot's and broadcaster's names lowercased. */
    users: seq<UserRow>,
    botName: string,
    broadcasterName: string,
    isIgnored: UserRow -> bool,
    /** `$toptip.<type>.<value>`, which sorts tips by exchanged amount. */
    topTip: string -> Value,
    /** The custom-variable store: `getValueOf(variable, sender, param)` and `setValueOf(variable, value, sender)`. */
    getVar: (string, string, Option<string>) -> Value,
    setVar: (string, string, string) -> SetState,
    /** The translated `filters.setVariable` notice for a value and a variable. */
    setNotice: (string, string) -> string,
    /** `safe-eval` of a condition: `None` when it throws. */
    evaluate: string -> Option<Value>,
    /** `mathjs.evaluate` of a `(math.…)` token: `None` when it throws. */
    evalMath: string -> Option<Value>,
    /** `getCountOfCommandUsage`, and the command named in a `$count('…')` token. */
    countOf: string -> nat,
    countArg: string -> Option<string>,
    /** `querystring.escape` and `encodeURI`. */
    escape: string -> string,
    encodeUri: string -> string,
    tables: Lists.Tables,
    /** `oauth.botAccessToken` and the Twitch answer about another channel (`None` on failure). */
    botToken: string,
    streamInfo: (string, StreamField) -> Option<Value>,
    /** The response of `axios.get(url)`: `None` when the request is rejected. */
    fetch: string -> Option<(int, Json.Json)>,
    /** The translated `core.api.not-available` text. */
    notAvailable: string)

  /** One entry of a filter table. */
  datatype Resolver =
    | Price
    | TopTip | Game | Status
    | RandomUser(online: bool, role: Role) | RandomNumber | TrueOrFalse
    | If
    | CustomVar | QuietVar | SilentVar
    | EvalCode
    | ToUser | Param | ParamOrNa
    | MathExpr
    | OnlineOnly | OfflineOnly
    | CountOf | Count | RunQuiet | RunLoud
    | QueryString | Url
    | List
    | StreamInfo(field: StreamField)

  /** The filter key each resolver is registered under. */
  function Key(r: Resolver): (k: string)
    ensures k != [] && (k[0] == '$' || k[0] == '(')
  {
    match r
    case Price => "(price)"
    case TopTip => "$toptip.#.#"
    case Game => "(game)"
    case Status => "(status)"
    case RandomUser(online, role) =>
      "(random." + (if online then "online." else "") +
      (match role case Anyone => "viewer" case Follower => "follower" case Subscriber => "subscriber") + ")"
    case RandomNumber => "(random.number-#-to-#)"
    case TrueOrFalse => "(random.true-or-false)"
    case If => "(if#)"
    case CustomVar => "$_#"
    case QuietVar => "$!_#"
    case SilentVar => "$!!_#"
    case EvalCode => "(eval#)"
    case ToUser => "$touser"
    case Param => "$param"
    case ParamOrNa => "$!param"
    case MathExpr => "(math.#)"
    case OnlineOnly => "(onlineonly)"
    case OfflineOnly => "(offlineonly)"
    case CountOf => "$count('#')"
    case Count => "$count"
    case RunQuiet => "(!!#)"
    case RunLoud => "(!#)"
    case QueryString => "$querystring"
    case Url => "(url|#)"
    case List => "(list.#)"
    case StreamInfo(f) =>
      "(stream|#|" + (match f case StreamGame => "game" case StreamTitle => "title" case StreamViewers => "viewers") + ")"
  }

  // ---------------------------------------------------------------- tables of `parse`

  const PriceTable: seq<Resolver> := [Price]
  const InfoTable: seq<Resolver> := [TopTip, Game, Status]
  const RandomTable: seq<Resolver> := [
    RandomUser(true, Anyone), RandomUser(true, Follower), RandomUser(true, Subscriber),
    RandomUser(false, Anyone), RandomUser(false, Follower), RandomUser(false, Subscriber),
    RandomNumber, TrueOrFalse]
  const IfTable: seq<Resolver> := [If]
  const CustomTable: seq<Resolver> := [CustomVar, QuietVar, SilentVar]
  const EvalTable: seq<Resolver> := [EvalCode]
  const ParamTable: seq<Resolver> := [ToUser, Param, ParamOrNa]
  const MathTable: seq<Resolver> := [MathExpr]
  const OnlineTable: seq<Resolver> := [OnlineOnly, OfflineOnly]
  const CommandTable: seq<Resolver> := [CountOf, Count, RunQuiet, RunLoud]
  const QsTable: seq<Resolver> := [QueryString, Url]
  const ListTable: seq<Resolver> := [List]
  const StreamTable: seq<Resolver> := [StreamInfo(StreamGame), StreamInfo(StreamTitle), StreamInfo(StreamViewers)]

  // ---------------------------------------------------------------- helpers

  /** `tmi.showWithAt ? '@' : ''`. */
  function At(env: Env): string {
    if env.showWithAt then "@" else ""
  }

  /** `!_.isNil(attr.param) && attr.param.length !== 0`. */
  predicate HasParam(a: Attr) {
    a.param.Some? && a.param.value != ""
  }

  /** `String(attr.param)`, as a regular-expression replace inserts it. */
  function ParamText(a: Attr): string {
    match a.param case Some(p) => p case None => "undefined"
  }

  /** `.slice(0, -1)`. */
  function DropLast(s: string): (r: string)
    ensures |r| == if s == [] then 0 else |s| - 1
  {
    if s == [] then [] else s[..|s| - 1]
  }

  function Draw(env: Env, ctx: Ctx): nat {
    env.random(ctx.draws)
  }

  function NextDraw(ctx: Ctx): (c: Ctx)
    ensures c.draws == ctx.draws + 1 && c.attr == ctx.attr && c.effects == ctx.effects
  {
    ctx.(draws := ctx.draws + 1)
  }

  function Emit(ctx: Ctx, e: Effect): (c: Ctx)
    ensures c.effects == ctx.effects + [e] && c.attr == ctx.attr && c.draws == ctx.draws
  {
    ctx.(effects := ctx.effects + [e])
  }

  // ---------------------------------------------------------------- `$touser`, `$param`, `$!param`

  /**
   * `$touser`: the argument without its first `@` (stored back into `attr.param`),
   * prefixed with `@` when `showWithAt`; without an argument, the sender's name.
   */
  function ToUserResolver(env: Env, ctx: Ctx): (r: Resolved)
    ensures ctx.attr.None? ==> r.out == Throw
    ensures ctx.attr.Some? ==>
      (r.out.Return? && r.out.v.Str? && r.ctx.attr.Some? &&
       r.ctx.draws == ctx.draws && r.ctx.effects == ctx.effects &&
       r.ctx.attr.value == ctx.attr.value.(param := r.ctx.attr.value.param))
    ensures ctx.attr.Some? && ctx.attr.value.param.None? ==>
      r == Resolved(Return(Str(At(env) + ctx.attr.value.sender)), ctx)
    ensures ctx.attr.Some? && ctx.attr.value.param.Some? ==>
      var q := ReplaceFirst(ctx.attr.value.param.value, "@", "");
      (q == "" ==> r.out == Return(Str(At(env) + ctx.attr.value.sender)) && r.ctx.attr.value.param == Some("")) &&
      (q != "" ==> r.out == Return(Str(At(env) + q)) && r.ctx.attr.value.param == Some(At(env) + q))
  {
    match ctx.attr
    case None => Resolved(Throw, ctx)
    case Some(a) =>
      match a.param
      case None => Resolved(Return(Str(At(env) + a.sender)), ctx)
      case Some(p) =>
        var q := ReplaceFirst(p, "@", "");
        if q != "" then
          var shown := At(env) + q;
          Resolved(Return(Str(shown)), ctx.(attr := Some(a.(param := Some(shown)))))
        else Resolved(Return(Str(At(env) + a.sender)), ctx.(attr := Some(a.(param := Some(q)))))
  }

  /** Dropping the first `@` of a text: `text.replace('@', '')`. */
  lemma StripAt(p: string)
    ensures '@' !in p ==> ReplaceFirst(p, "@", "") == p
    ensures p != [] && p[0] == '@' ==> ReplaceFirst(p, "@", "") == p[1..]
  {
    assert forall j :: 0 <= j <= |p| ==> (OccursAt(p, "@", j) <==> j < |p| && p[j] == '@');
    if p != [] && p[0] == '@' {
      assert OccursAt(p, "@", 0);
    }
  }

  /** With `showWithAt`, a second `$touser` in the same message gives the same text as the first. */
  lemma ToUserRepeats(env: Env, ctx: Ctx)
    requires env.showWithAt && ctx.attr.Some?
    ensures var first := ToUserResolver(env, ctx);
      ToUserResolver(env, first.ctx).out == first.out
  {
    var a := ctx.attr.value;
    var first := ToUserResolver(env, ctx);
    match a.param
    case None =>
    case Some(p) =>
      var q := ReplaceFirst(p, "@", "");
      if q != "" {
        StripAt("@" + q);
        assert ("@" + q)[1..] == q;
      } else {
        StripAt("");
      }
  }

  /** `$param` (`orElse` is `''`) and `$!param` (`orElse` is `'n/a'`). */
  function ParamResolver(ctx: Ctx, orElse: string): (r: Resolved)
    ensures r.ctx == ctx
    ensures ctx.attr.None? <==> r.out == Throw
    ensures ctx.attr.Some? && HasParam(ctx.attr.value) ==> r.out == Return(Str(ctx.attr.value.param.value))
    ensures ctx.attr.Some? && !HasParam(ctx.attr.value) ==> r.out == Return(Str(orElse))
  {
    match ctx.attr
    case None => Resolved(Throw, ctx)
    case Some(a) => Resolved(Return(Str(if HasParam(a) then a.param.value else orElse)), ctx)
  }

  // ---------------------------------------------------------------- `(if …)`

  /** The payload of an `(if c|t|e)` token with `$param`/`$!param` substituted, split on `|`. */
  function IfParts(m: string, a: Attr): (parts: seq<string>)
    ensures |parts| >= 1
  {
    var body := DropLast(ReplaceFirst(m, "(if ", ""));
    Split(ReplaceAll(body, ["$param", "$!param"], ParamText(a)), "|")
  }

  /** A condition written as a bare comparison (`>2`, `<x`, `=y`) is forced to false. */
  predicate ForcedFalse(check: string) {
    check != [] && (check[0] == '>' || check[0] == '<' || check[0] == '=')
  }

  /**
   * `(if check|then|else)`: no `then` gives `undefined`; a forced or falsy condition gives
   * `else`, or `''` without one; a truthy condition gives `then`; anything that throws
   * gives `''`.
   */
  function IfResolver(env: Env, m: string, ctx: Ctx): (r: Resolved)
    ensures r.ctx == ctx && r.out.Return?
    ensures ctx.attr.None? ==> r.out.v == Str("")
    ensures ctx.attr.Some? ==> var parts := IfParts(m, ctx.attr.value);
      (|parts| == 1 <==> r.out.v == Undefined) &&
      (|parts| >= 2 && ForcedFalse(parts[0]) ==> r.out.v == Str(if |parts| >= 3 then parts[2] else "")) &&
      (|parts| >= 2 && !ForcedFalse(parts[0]) && env.evaluate(parts[0]).None? ==> r.out.v == Str("")) &&
      (|parts| >= 2 && !ForcedFalse(parts[0]) && env.evaluate(parts[0]).Some? ==>
        r.out.v == Str(if Truthy(env.evaluate(parts[0]).value) then parts[1] else if |parts| >= 3 then parts[2] else ""))
  {
    match ctx.attr
    case None => Resolved(Return(Str("")), ctx)
    case Some(a) =>
      var parts := IfParts(m, a);
      if |parts| < 2 then Resolved(Return(Undefined), ctx)
      else
        var cond: Option<Value> := if ForcedFalse(parts[0]) then Some(Bool(false)) else env.evaluate(parts[0]);
        match cond
        case None => Resolved(Return(Str("")), ctx)
        case Some(c) =>
          Resolved(Return(Str(if Truthy(c) then parts[1] else if |parts| >= 3 then parts[2] else "")), ctx)
  }

  /** The result of `(if …)` is always one of the pieces of its payload, `''` or `undefined`. */
  lemma IfPicksPiece(env: Env, m: string, ctx: Ctx)
    requires ctx.attr.Some?
    ensures var v := IfResolver(env, m, ctx).out.v; var parts := IfParts(m, ctx.attr.value);
      v == Undefined || v == Str("") || exists i :: 1 <= i < |parts| && v == Str(parts[i])
  {
    var parts := IfParts(m, ctx.attr.value);
    var v := IfResolver(env, m, ctx).out.v;
    if |parts| >= 2 && v != Str("") && v != Undefined {
      if v == Str(parts[1]) {
      } else {
        assert v == Str(parts[2]);
      }
    }
  }

  // ---------------------------------------------------------------- `(random.number-A-to-B)`

  /** The bounds written in a `(random.number-A-to-B)` token. */
  function NumberTexts(m: string): (r: seq<string>)
    ensures |r| >= 1
  {
    Split(ReplaceFirst(ReplaceFirst(m, "(random.number-", ""), ")", ""), "-to-")
  }

  /** `_.isFinite(parseInt(text, 10))`. */
  predicate IsIntText(text: string) {
    ParseInt(text).Some?
  }

  /** Which bounds are integers, checked once on the bounds as written. */
  function IntMask(numbers: seq<string>): (ints: seq<bool>)
    ensures |ints| == |numbers| && forall i :: 0 <= i < |numbers| ==> (ints[i] <==> IsIntText(numbers[i]))
  {
    seq(|numbers|, i requires 0 <= i < |numbers| => IsIntText(numbers[i]))
  }

  /**
   * The bounds from index `k` on, each one that is not an integer (`!ints[k]`) replaced
   * by the next unused space-separated argument; `None` when the arguments run out or
   * there is no `attr.param` to split (this resolver then gives 0).
   */
  function FillFrom(numbers: seq<string>, ints: seq<bool>, k: nat, args: Option<seq<string>>, used: nat): (r: Option<seq<string>>)
    requires k <= |numbers| == |ints|
    ensures r.Some? ==> |r.value| == |numbers|
    decreases |numbers| - k
  {
    if k == |numbers| then Some(numbers)
    else if ints[k] then FillFrom(numbers, ints, k + 1, args, used)
    else match args
      case None => None
      case Some(a) =>
        if used >= |a| then None
        else FillFrom(numbers[k := a[used]], ints, k + 1, args, used + 1)
  }

  /** `attr.param.split(' ')`, or `None` when there is no `attr.param` to split. */
  function Arguments(ctx: Ctx): Option<seq<string>> {
    match ctx.attr
    case None => None
    case Some(a) => match a.param case None => None case Some(p) => Some(Split(p, " "))
  }

  /** The number of bounds before index `k` that are not integers. */
  function Gaps(ints: seq<bool>, k: nat): (n: nat)
    requires k <= |ints|
    ensures n <= k
  {
    if k == 0 then 0 else Gaps(ints, k - 1) + (if ints[k - 1] then 0 else 1)
  }

  /** The independent description of the filling: bound `i` keeps its text or takes argument number `Gaps(ints, i)`. */
  predicate FilledAs(numbers: seq<string>, ints: seq<bool>, args: seq<string>, r: seq<string>)
    requires |ints| == |numbers|
  {
    |r| == |numbers| &&
    forall i :: 0 <= i < |numbers| ==>
      (ints[i] ==> r[i] == numbers[i]) &&
      (!ints[i] ==> Gaps(ints, i) < |args| && r[i] == args[Gaps(ints, i)])
  }

  lemma GapsGrow(ints: seq<bool>, j: nat, k: nat)
    requires j <= k <= |ints|
    ensures Gaps(ints, j) <= Gaps(ints, k)
    decreases k - j
  {
    if j < k { GapsGrow(ints, j, k - 1); }
  }

  /**
   * The bounds before `k` are filled as `FilledAs` describes and those from `k` on still
   * hold their original text.
   */
  predicate FilledUpTo(numbers: seq<string>, orig: seq<string>, ints: seq<bool>, args: seq<string>, k: nat)
    requires k <= |numbers| == |orig| == |ints|
  {
    numbers[k..] == orig[k..] &&
    forall i :: 0 <= i < k ==>
      (ints[i] ==> numbers[i] == orig[i]) &&
      (!ints[i] ==> Gaps(ints, i) < |args| && numbers[i] == args[Gaps(ints, i)])
  }

  lemma {:induction false} FillFromMeaning(numbers: seq<string>, orig: seq<string>, ints: seq<bool>, k: nat, args: seq<string>, used: nat)
    requires k <= |numbers| == |orig| == |ints| && FilledUpTo(numbers, orig, ints, args, k)
    requires used == Gaps(ints, k) && used <= |args|
    ensures FillFrom(numbers, ints, k, Some(args), used).Some? <==> Gaps(ints, |ints|) <= |args|
    ensures FillFrom(numbers, ints, k, Some(args), used).Some? ==> FilledAs(orig, ints, args, FillFrom(numbers, ints, k, Some(args), used).value)
    decreases |numbers| - k
  {
    var r := FillFrom(numbers, ints, k, Some(args), used);
    if k == |numbers| {
      assert r == Some(numbers);
      FilledAll(numbers, orig, ints, args);
    } else if ints[k] {
      assert r == FillFrom(numbers, ints, k + 1, Some(args), used);
      KeepStep(numbers, orig, ints, k, args, used);
      FillFromMeaning(numbers, orig, ints, k + 1, args, used);
    } else if used >= |args| {
      assert r == None;
      GapsExceeded(ints, k, used, |args|);
    } else {
      var next := numbers[k := args[used]];
      assert r == FillFrom(next, ints, k + 1, Some(args), used + 1);
      FillStep(numbers, orig, ints, k, args, used);
      FillFromMeaning(next, orig, ints, k + 1, args, used + 1);
    }
  }

  /** A non-integer bound with no argument left means more bounds than arguments. */
  lemma GapsExceeded(ints: seq<bool>, k: nat, used: nat, n: nat)
    requires k < |ints| && !ints[k] && used == Gaps(ints, k) && used == n
    ensures Gaps(ints, |ints|) > n
  {
    assert Gaps(ints, k + 1) == n + 1 by { assert k + 1 - 1 == k; }
    GapsGrow(ints, k + 1, |ints|);
  }

  /** Filled up to the end is filled as `FilledAs` describes. */
  lemma FilledAll(numbers: seq<string>, orig: seq<string>, ints: seq<bool>, args: seq<string>)
    requires |numbers| == |orig| == |ints| && FilledUpTo(numbers, orig, ints, args, |numbers|)
    ensures FilledAs(orig, ints, args, numbers)
  {
  }

  /** An integer bound `k` keeps its text, and the requirements of `FillFromMeaning` hold one index further. */
  lemma KeepStep(numbers: seq<string>, orig: seq<string>, ints: seq<bool>, k: nat, args: seq<string>, used: nat)
    requires k < |numbers| == |orig| == |ints| && FilledUpTo(numbers, orig, ints, args, k)
    requires used == Gaps(ints, k) && ints[k]
    ensures FilledUpTo(numbers, orig, ints, args, k + 1) && used == Gaps(ints, k + 1)
  {
    assert numbers[k] == orig[k] by { assert numbers[k..][0] == orig[k..][0]; }
    assert numbers[k + 1..] == orig[k + 1..] by {
      assert numbers[k + 1..] == numbers[k..][1..];
      assert orig[k + 1..] == orig[k..][1..];
    }
  }

  /** One argument taken for the non-integer bound `k` keeps the requirements of `FillFromMeaning`. */
  lemma FillStep(numbers: seq<string>, orig: seq<string>, ints: seq<bool>, k: nat, args: seq<string>, used: nat)
    requires k < |numbers| == |orig| == |ints| && FilledUpTo(numbers, orig, ints, args, k)
    requires used == Gaps(ints, k) && used < |args| && !ints[k]
    ensures FilledUpTo(numbers[k := args[used]], orig, ints, args, k + 1) && used + 1 == Gaps(ints, k + 1)
  {
    var next := numbers[k := args[used]];
    assert next[k + 1..] == orig[k + 1..] by { SetKeepsTail(numbers, orig, k, args[used]); }
    assert forall i :: 0 <= i < k + 1 ==> (ints[i] ==> next[i] == orig[i]) by {
      forall i | 0 <= i < k + 1 && ints[i] ensures next[i] == orig[i] {
        assert i != k;
      }
    }
    assert forall i :: 0 <= i < k + 1 ==> (!ints[i] ==> Gaps(ints, i) < |args| && next[i] == args[Gaps(ints, i)]) by {
      forall i | 0 <= i < k + 1 && !ints[i] ensures Gaps(ints, i) < |args| && next[i] == args[Gaps(ints, i)] {
        if i < k {
          assert next[i] == numbers[i];
        } else {
          assert i == k && next[k] == args[used];
        }
      }
    }
  }

  /** Setting index `k` of sequences that agree from `k` on leaves them agreeing after `k`. */
  lemma SetKeepsTail<T>(a: seq<T>, b: seq<T>, k: nat, x: T)
    requires k < |a| == |b| && a[k..] == b[k..]
    ensures a[k := x][k + 1..] == b[k + 1..]
  {
    assert forall i :: k + 1 <= i < |a| ==> a[k := x][i] == a[i];
    assert a[k + 1..] == a[k..][1..];
    assert b[k + 1..] == b[k..][1..];
  }

  /**
   * Arguments are consumed left to right: the filling succeeds exactly when there are
   * enough arguments for all non-integer bounds, and then bound `i` keeps its text or
   * takes the argument numbered by the non-integer bounds before it.
   */
  lemma FillMeaning(numbers: seq<string>, args: seq<string>)
    ensures var ints := IntMask(numbers);
      (FillFrom(numbers, ints, 0, Some(args), 0).Some? <==> Gaps(ints, |ints|) <= |args|) &&
      (FillFrom(numbers, ints, 0, Some(args), 0).Some? ==> FilledAs(numbers, ints, args, FillFrom(numbers, ints, 0, Some(args), 0).value))
  {
    FillFromMeaning(numbers, numbers, IntMask(numbers), 0, args, 0);
  }

  /** Filling with no `attr.param` succeeds only when every bound is an integer, and then changes nothing. */
  lemma {:induction false} FillFromNoParam(numbers: seq<string>, ints: seq<bool>, k: nat)
    requires k <= |numbers| == |ints|
    ensures FillFrom(numbers, ints, k, None, 0).Some? <==> forall i :: k <= i < |ints| ==> ints[i]
    ensures FillFrom(numbers, ints, k, None, 0).Some? ==> FillFrom(numbers, ints, k, None, 0).value == numbers
    decreases |numbers| - k
  {
    if k < |numbers| {
      FillFromNoParam(numbers, ints, k + 1);
    }
  }

  /** The `lastParamUsed` loop: fills the bounds in place. */
  method FillBounds(numbers: seq<string>, args: Option<seq<string>>) returns (r: Option<seq<string>>)
    ensures r == FillFrom(numbers, IntMask(numbers), 0, args, 0)
  {
    ghost var ints := IntMask(numbers);
    ghost var goal := FillFrom(numbers, ints, 0, args, 0);
    var filled := numbers;
    var lastParamUsed := 0;
    var index := 0;
    while index < |filled|
      invariant 0 <= index <= |filled| == |numbers|
      invariant filled[index..] == numbers[index..]
      invariant FillFrom(filled, ints, index, args, lastParamUsed) == goal
      decreases |filled| - index
    {
      assert ints[index] == IsIntText(filled[index]) by {
        assert filled[index] == numbers[index] by { assert filled[index..][0] == numbers[index..][0]; }
      }
      FillFromStep(filled, ints, index, args, lastParamUsed);
      if !IsIntText(filled[index]) {
        if args.None? || lastParamUsed >= |args.value| {
          return None;
        }
        SetKeepsTail(filled, numbers, index, args.value[lastParamUsed]);
        filled := filled[index := args.value[lastParamUsed]];
        lastParamUsed := lastParamUsed + 1;
      } else {
        assert filled[index + 1..] == numbers[index + 1..] by {
          assert filled[index + 1..] == filled[index..][1..];
          assert numbers[index + 1..] == numbers[index..][1..];
        }
      }
      index := index + 1;
    }
    return Some(filled);
  }

  /** One bound of the filling: kept, filled from the next argument, or the end for want of one. */
  lemma FillFromStep(numbers: seq<string>, ints: seq<bool>, k: nat, args: Option<seq<string>>, used: nat)
    requires k < |numbers| == |ints|
    ensures FillFrom(numbers, ints, k, args, used) ==
      if ints[k] then FillFrom(numbers, ints, k + 1, args, used)
      else if args.None? || used >= |args.value| then None
      else FillFrom(numbers[k := args.value[used]], ints, k + 1, args, used + 1)
  {
  }

  /**
   * lodash's `toFinite` of a bound: a string that is not numeric counts as 0, a decimal
   * integer as itself; `None` for the other numeric forms (fractions, exponents,
   * hexadecimal, `Infinity`), which the integer model does not evaluate.
   */
  function ToFinite(text: string): (r: Option<int>)
    ensures !IsNumericString(text) ==> r == Some(0)
    ensures IsNumericString(text) && StringToInt(text).Some? ==> r == StringToInt(text)
  {
    if !IsNumericString(text) then Some(0) else StringToInt(text)
  }

  /** `_.random(lower, upper)` on integers: the bounds in either order, inclusive; one bound means `0..bound`. */
  function RandomBetween(env: Env, ctx: Ctx, a: int, b: int): (r: Resolved)
    ensures r.ctx == NextDraw(ctx)
    ensures r.out.Return? && r.out.v.Num?
    ensures (if a <= b then a else b) <= r.out.v.n <= (if a <= b then b else a)
  {
    var lo := if a <= b then a else b;
    var hi := if a <= b then b else a;
    Resolved(Return(Num(lo + Draw(env, ctx) % (hi - lo + 1))), NextDraw(ctx))
  }

  /** `(random.number-A-to-B)`. */
  function RandomNumberResolver(env: Env, m: string, ctx: Ctx, nonDecimal: Value): (r: Resolved)
    ensures r.out.Return?
    ensures r.ctx.attr == ctx.attr && r.ctx.effects == ctx.effects
    ensures FillFrom(NumberTexts(m), IntMask(NumberTexts(m)), 0, Arguments(ctx), 0).None? ==> r == Resolved(Return(Num(0)), ctx)
  {
    var texts := NumberTexts(m);
    match FillFrom(texts, IntMask(texts), 0, Arguments(ctx), 0)
    case None => Resolved(Return(Num(0)), ctx)
    case Some(numbers) =>
      var upper := if |numbers| >= 2 then ToFinite(numbers[1]) else Some(0);
      match (ToFinite(numbers[0]), upper)
      case (Some(a), Some(b)) => RandomBetween(env, ctx, a, b)
      case _ => Resolved(Return(nonDecimal), ctx)
  }

  /** The number drawn lies between the two (filled) bounds, whichever order they come in. */
  lemma RandomNumberInRange(env: Env, m: string, ctx: Ctx, nonDecimal: Value, numbers: seq<string>, a: int, b: int)
    requires FillFrom(NumberTexts(m), IntMask(NumberTexts(m)), 0, Arguments(ctx), 0) == Some(numbers)
    requires |numbers| >= 2 && ToFinite(numbers[0]) == Some(a) && ToFinite(numbers[1]) == Some(b)
    ensures var v := RandomNumberResolver(env, m, ctx, nonDecimal).out.v;
      v.Num? && (if a <= b then a else b) <= v.n <= (if a <= b then b else a)
  {
    var texts := NumberTexts(m);
    assert FillFrom(texts, IntMask(texts), 0, Arguments(ctx), 0) == Some(numbers);
    var upper := if |numbers| >= 2 then ToFinite(numbers[1]) else Some(0);
    assert upper == Some(b);
    assert RandomNumberResolver(env, m, ctx, nonDecimal) == RandomBetween(env, ctx, a, b);
  }

  /** More non-integer bounds than space-separated arguments: the token shows 0 and nothing is drawn. */
  lemma RandomNumberArgumentsShort(env: Env, m: string, ctx: Ctx, nonDecimal: Value, args: seq<string>)
    requires Arguments(ctx) == Some(args) && Gaps(IntMask(NumberTexts(m)), |NumberTexts(m)|) > |args|
    ensures RandomNumberResolver(env, m, ctx, nonDecimal) == Resolved(Return(Num(0)), ctx)
  {
    FillMeaning(NumberTexts(m), args);
  }

  /** A non-integer bound and no `attr.param`: the token shows 0 and nothing is drawn. */
  lemma RandomNumberNoParam(env: Env, m: string, ctx: Ctx, nonDecimal: Value, i: nat)
    requires Arguments(ctx).None? && i < |NumberTexts(m)| && !IsIntText(NumberTexts(m)[i])
    ensures RandomNumberResolver(env, m, ctx, nonDecimal) == Resolved(Return(Num(0)), ctx)
  {
    FillFromNoParam(NumberTexts(m), IntMask(NumberTexts(m)), 0);
  }

  // ---------------------------------------------------------------- random users, `(random.true-or-false)`

  predicate Eligible(env: Env, u: UserRow, online: bool, role: Role) {
    u.username != env.botName && u.username != env.broadcasterName &&
    (online ==> u.isOnline) &&
    (role == Follower ==> u.isFollower) && (role == Subscriber ==> u.isSubscriber) &&
    !env.isIgnored(u)
  }

  function Candidates(env: Env, users: seq<UserRow>, online: bool, role: Role): (r: seq<string>)
    ensures forall n :: n in r <==> exists u :: u in users && Eligible(env, u, online, role) && u.username == n
    decreases |users|
  {
    if users == [] then []
    else
      var rest := Candidates(env, users[1..], online, role);
      assert forall u :: u in users <==> u == users[0] || u in users[1..];
      (if Eligible(env, users[0], online, role) then [users[0].username] else []) + rest
  }

  /** `(random[.online].viewer|follower|subscriber)`: an eligible user's name, or `'unknown'`. */
  function RandomUserResolver(env: Env, online: bool, role: Role, ctx: Ctx): (r: Resolved)
    ensures r.out.Return? && r.out.v.Str?
    ensures Candidates(env, env.users, online, role) == [] ==> r == Resolved(Return(Str("unknown")), ctx)
    ensures Candidates(env, env.users, online, role) != [] ==>
      r.ctx == NextDraw(ctx) && exists u :: u in env.users && Eligible(env, u, online, role) && u.username == r.out.v.s
  {
    var names := Candidates(env, env.users, online, role);
    if names == [] then Resolved(Return(Str("unknown")), ctx)
    else
      var pick := names[Draw(env, ctx) % |names|];
      assert pick in names;
      Resolved(Return(Str(pick)), NextDraw(ctx))
  }

  // ---------------------------------------------------------------- custom variables

  /**
   * `$_name`: with an argument the variable is set; the default response type sends the
   * setting notice (unless the set failed or was an eval) and shows the new value, type 1
   * sends its custom response and shows nothing, any other type shows the new value.
   * Without an argument the variable's value is shown.
   */
  function CustomResolver(env: Env, m: string, ctx: Ctx): (r: Resolved)
    ensures ctx.attr.None? <==> r.out == Throw
    ensures r.ctx.attr == ctx.attr && r.ctx.draws == ctx.draws
    ensures ctx.attr.Some? && !HasParam(ctx.attr.value) ==>
      r == Resolved(Return(env.getVar(m, ctx.attr.value.sender, ctx.attr.value.param)), ctx)
    ensures ctx.attr.Some? && HasParam(ctx.attr.value) ==>
      var a := ctx.attr.value; var st := env.setVar(m, a.param.value, a.sender);
      |r.ctx.effects| > |ctx.effects| && r.ctx.effects[..|ctx.effects| + 1] == ctx.effects + [SetVariable(m, a.param.value)] &&
      r.out.v == (if st.responseType == 1 then Str("") else st.currentValue)
    ensures ctx.attr.Some? && HasParam(ctx.attr.value) ==>
      var a := ctx.attr.value; var st := env.setVar(m, a.param.value, a.sender); var quiet := a.quiet.GetOr(false);
      r.ctx.effects == ctx.effects + [SetVariable(m, a.param.value)]
        + (if st.responseType == 0 && st.isOk && !st.isEval then [SendMessage(env.setNotice(st.setValue, m), a.sender, quiet)]
           else if st.responseType == 1 then [SendMessage(ReplaceFirst(st.responseText, "$value", st.setValue), a.sender, quiet)]
           else [])
  {
    match ctx.attr
    case None => Resolved(Throw, ctx)
    case Some(a) =>
      if !HasParam(a) then Resolved(Return(env.getVar(m, a.sender, a.param)), ctx)
      else
        var st := env.setVar(m, a.param.value, a.sender);
        var stored := Emit(ctx, SetVariable(m, a.param.value));
        var quiet := a.quiet.GetOr(false);
        if st.responseType == 0 then
          var c := if st.isOk && !st.isEval then Emit(stored, SendMessage(env.setNotice(st.setValue, m), a.sender, quiet)) else stored;
          Resolved(Return(st.currentValue), c)
        else if st.responseType == 1 then
          Resolved(Return(Str("")), Emit(stored, SendMessage(ReplaceFirst(st.responseText, "$value", st.setValue), a.sender, quiet)))
        else Resolved(Return(st.currentValue), stored)
  }

  /** `$!_name`: sets the variable `$_name` without any notice and shows its value. */
  function QuietVarResolver(env: Env, m: string, ctx: Ctx): (r: Resolved)
    ensures ctx.attr.None? <==> r.out == Throw
    ensures var v := ReplaceFirst(m, "$!_", "$_");
      ctx.attr.Some? ==>
        (r.out.Return? &&
         (HasParam(ctx.attr.value) ==>
           r.ctx == Emit(ctx, SetVariable(v, ctx.attr.value.param.value)) &&
           r.out.v == env.setVar(v, ctx.attr.value.param.value, ctx.attr.value.sender).currentValue) &&
         (!HasParam(ctx.attr.value) ==> r == Resolved(Return(env.getVar(v, ctx.attr.value.sender, ctx.attr.value.param)), ctx)))
  {
    var v := ReplaceFirst(m, "$!_", "$_");
    match ctx.attr
    case None => Resolved(Throw, ctx)
    case Some(a) =>
      if HasParam(a) then Resolved(Return(env.setVar(v, a.param.value, a.sender).currentValue), Emit(ctx, SetVariable(v, a.param.value)))
      else Resolved(Return(env.getVar(v, a.sender, a.param)), ctx)
  }

  /** `$!!_name`: sets `$_name` when there is an argument, and always shows nothing. */
  function SilentVarResolver(m: string, ctx: Ctx): (r: Resolved)
    ensures ctx.attr.None? <==> r.out == Throw
    ensures ctx.attr.Some? ==> r.out == Return(Str(""))
    ensures ctx.attr.Some? && HasParam(ctx.attr.value) ==>
      r.ctx == Emit(ctx, SetVariable(ReplaceFirst(m, "$!!_", "$_"), ctx.attr.value.param.value))
    ensures ctx.attr.Some? && !HasParam(ctx.attr.value) ==> r.ctx == ctx
  {
    match ctx.attr
    case None => Resolved(Throw, ctx)
    case Some(a) =>
      var c := if HasParam(a) then Emit(ctx, SetVariable(ReplaceFirst(m, "$!!_", "$_"), a.param.value)) else ctx;
      Resolved(Return(Str("")), c)
  }

  // ---------------------------------------------------------------- commands, query string, streams

  /** The command text of a `(!cmd)` / `(!!cmd)` token, the first `!` dropped for the quiet form. */
  function CommandText(env: Env, m: string, a: Attr, quiet: bool): string {
    var t := if quiet then ReplaceFirst(m, "!", "") else m;
    var t1 := ReplaceAll(t, ["(", ")"], "");
    var t2 := ReplaceAll(t1, ["$sender"], At(env) + a.sender);
    ReplaceAll(t2, ["$param"], ParamText(a))
  }

  /** `/\(url\|(.*)\)/.exec(filter)[1]`: after the first `(url|`, up to the last `)` of that line. */
  function UrlArg(m: string): Option<string> {
    match IndexOf(m, "(url|")
    case None => None
    case Some(i) =>
      var line := Line(m[i + 5..]);
      match LastIndexOfChar(line, ')')
      case None => None
      case Some(k) => Some(line[..k])
  }

  function StreamDefault(f: StreamField): string {
    if f == StreamViewers then "0" else "n/a"
  }

  function StreamChannel(m: string, f: StreamField): string {
    var suffix := match f case StreamGame => "|game)" case StreamTitle => "|title)" case StreamViewers => "|viewers)";
    ReplaceFirst(ReplaceFirst(m, "(stream|", ""), suffix, "")
  }

  // ---------------------------------------------------------------- dispatch

  /** Calls the resolver of a filter key on one matched text. */
  function Resolve(env: Env, r: Resolver, m: string, ctx: Ctx): (res: Resolved)
    ensures res.ctx.draws >= ctx.draws
  {
    match r
    case Price =>
      // The local `price` shadows the price system, so the price is always 0.
      Resolved(Return(Str("0 " + env.tables.pointsName(0))), ctx)
    case TopTip => Resolved(Return(env.topTip(m)), ctx)
    case Game => Resolved(Return(if Truthy(env.game) then env.game else Str("n/a")), ctx)
    case Status => Resolved(Return(if Truthy(env.title) then env.title else Str("n/a")), ctx)
    case RandomUser(online, role) => RandomUserResolver(env, online, role, ctx)
    case RandomNumber => RandomNumberResolver(env, m, ctx, Num(0))
    case TrueOrFalse => Resolved(Return(Bool(Draw(env, ctx) % 2 == 0)), NextDraw(ctx))
    case If => IfResolver(env, m, ctx)
    case CustomVar => CustomResolver(env, m, ctx)
    case QuietVar => QuietVarResolver(env, m, ctx)
    case SilentVar => SilentVarResolver(m, ctx)
    case EvalCode =>
      // `users` is a local empty array here, so `users.get(...)` throws on every call.
      Resolved(Throw, ctx)
    case ToUser => ToUserResolver(env, ctx)
    case Param => ParamResolver(ctx, "")
    case ParamOrNa => ParamResolver(ctx, "n/a")
    case MathExpr =>
      (match env.evalMath(m) case Some(v) => Resolved(Return(v), ctx) case None => Resolved(Throw, ctx))
    case OnlineOnly => Resolved(Return(Bool(env.isStreamOnline)), ctx)
    case OfflineOnly => Resolved(Return(Bool(!env.isStreamOnline)), ctx)
    case CountOf =>
      Resolved(Return(Str(match env.countArg(m) case Some(c) => NatToString(env.countOf(c)) case None => "0")), ctx)
    case Count =>
      (match ctx.attr
       case None => Resolved(Throw, ctx)
       case Some(a) =>
         Resolved(Return(Str(if a.cmd.Some? && a.cmd.value != "" then NatToString(env.countOf(a.cmd.value)) else "0")), ctx))
    case RunQuiet =>
      (match ctx.attr
       case None => Resolved(Throw, ctx)
       case Some(a) => Resolved(Return(Str("")), Emit(ctx, RunCommand(CommandText(env, m, a, true), a.sender, true))))
    case RunLoud =>
      (match ctx.attr
       case None => Resolved(Throw, ctx)
       case Some(a) => Resolved(Return(Str("")), Emit(ctx, RunCommand(CommandText(env, m, a, false), a.sender, false))))
    case QueryString =>
      (match ctx.attr
       case None => Resolved(Throw, ctx)
       case Some(a) => Resolved(Return(Str(if HasParam(a) then env.escape(a.param.value) else "")), ctx))
    case Url =>
      Resolved(Return(Str(match UrlArg(m) case Some(u) => env.encodeUri(u) case None => "")), ctx)
    case List => Resolved(Return(Str(Lists.List(env.tables, m))), ctx)
    case StreamInfo(f) =>
      if env.botToken == "" then Resolved(Return(Str(StreamDefault(f))), ctx)
      else Resolved(Return(env.streamInfo(StreamChannel(m, f), f).GetOr(Str(StreamDefault(f)))), ctx)
  }

  /** Only `$touser` changes the attributes, and only their `param`. */
  lemma ResolveKeepsAttr(env: Env, r: Resolver, m: string, ctx: Ctx)
    requires r != ToUser
    ensures Resolve(env, r, m, ctx).ctx.attr == ctx.attr
  {
  }

  /** A resolver only appends to the side effects already caused. */
  lemma ResolveAppendsEffects(env: Env, r: Resolver, m: string, ctx: Ctx)
    ensures var e := Resolve(env, r, m, ctx).ctx.effects; |e| >= |ctx.effects| && e[..|ctx.effects|] == ctx.effects
  {
    var e := Resolve(env, r, m, ctx).ctx.effects;
    if r == CustomVar && ctx.attr.Some? && HasParam(ctx.attr.value) {
      assert e[..|ctx.effects| + 1][..|ctx.effects|] == ctx.effects;
    }
  }
}
