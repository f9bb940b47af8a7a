/**
 * The `(list.<system>[.<permission>])` resolver: the tables it reads (visible and enabled
 * aliases and commands, enabled cooldowns and prices, all ranks) are inputs, and the
 * resolver is the formatting done on them.
 */
module Lists {
  import opened Wrappers
  import opened JsString

  datatype Response = Response(permission: string, cid: string)
  datatype CommandRow = CommandRow(id: string, command: string, responses: seq<Response>)
  datatype Cooldown = Cooldown(name: string, miliseconds: int)
  datatype Rank = Rank(rank: string, hours: int)
  datatype PriceRow = PriceRow(command: string, price: int)

  datatype Tables = Tables(
    aliases: seq<string>,
    commands: seq<CommandRow>,
    cooldowns: seq<Cooldown>,
    ranks: seq<Rank>,
    prices: seq<PriceRow>,
    /** `permissions.get(name)`: the id of the named permission group, if it exists. */
    permissionId: string -> Option<string>,
    /** `points.getPointsName(n)`. */
    pointsName: int -> string)

  /** `name.replace('!', '')`: the first `!` is dropped. */
  function StripBang(name: string): (r: string)
    ensures '!' !in name ==> r == name
    ensures (match IndexOf(name, "!") case Some(i) => r == name[..i] + name[i + 1..] case None => r == name)
  {
    assert forall j :: 0 <= j <= |name| ==> (OccursAt(name, "!", j) <==> j < |name| && name[j] == '!');
    ReplaceFirst(name, "!", "")
  }

  /** `names.sort().join(', ')`, or a single space for an empty table. */
  function SortedList(names: seq<string>): (r: string)
    ensures names == [] ==> r == " "
    ensures names != [] ==> r == Join(SortStrings(names), ", ")
  {
    if names == [] then " " else Join(SortStrings(names), ", ")
  }

  function AliasNames(aliases: seq<string>, keepBang: bool): (r: seq<string>)
    ensures |r| == |aliases|
    ensures forall i :: 0 <= i < |r| ==> r[i] == (if keepBang then aliases[i] else StripBang(aliases[i]))
  {
    if keepBang then aliases else seq(|aliases|, i requires 0 <= i < |aliases| => StripBang(aliases[i]))
  }

  /** Some command of the table has a response for `permission` whose `cid` is `c`. */
  predicate HasResponse(commands: seq<CommandRow>, permission: string, c: string) {
    exists i, k :: 0 <= i < |commands| && 0 <= k < |commands[i].responses| && commands[i].responses[k] == Response(permission, c)
  }

  /** The `cid` of every response for `permission`, over all commands, in table order. */
  function ResponseIds(commands: seq<CommandRow>, permission: string): (r: seq<string>)
    ensures forall c :: c in r <==> HasResponse(commands, permission, c)
    decreases |commands|
  {
    if commands == [] then []
    else
      var mine := OwnIds(commands[0].responses, permission);
      var rest := ResponseIds(commands[1..], permission);
      forall c ensures c in mine + rest <==> HasResponse(commands, permission, c) {
        if HasResponse(commands, permission, c) {
          var i, k :| 0 <= i < |commands| && 0 <= k < |commands[i].responses| && commands[i].responses[k] == Response(permission, c);
          if i > 0 {
            assert commands[1..][i - 1] == commands[i];
            assert HasResponse(commands[1..], permission, c);
          } else {
            assert c in mine;
          }
        }
        if c in rest {
          var i, k :| 0 <= i < |commands[1..]| && 0 <= k < |commands[1..][i].responses| && commands[1..][i].responses[k] == Response(permission, c);
          assert commands[i + 1] == commands[1..][i];
        }
        if c in mine {
          var k :| 0 <= k < |commands[0].responses| && commands[0].responses[k] == Response(permission, c);
        }
      }
      mine + rest
  }

  function OwnIds(responses: seq<Response>, permission: string): (r: seq<string>)
    ensures forall c :: c in r <==> exists k :: 0 <= k < |responses| && responses[k] == Response(permission, c)
    decreases |responses|
  {
    if responses == [] then []
    else
      var rest := OwnIds(responses[1..], permission);
      assert forall k :: 0 <= k < |responses| - 1 ==> responses[1..][k] == responses[k + 1];
      (if responses[0].permission == permission then [responses[0].cid] else []) + rest
  }

  function FilterById(commands: seq<CommandRow>, ids: seq<string>): (r: seq<CommandRow>)
    ensures forall c :: c in r <==> c in commands && c.id in ids
    ensures |r| <= |commands|
    decreases |commands|
  {
    if commands == [] then []
    else (if commands[0].id in ids then [commands[0]] else []) + FilterById(commands[1..], ids)
  }

  /**
   * The commands a `(list.command.<permission>)` shows: all of them without a
   * permission; with one, those having a response for that permission group, and none
   * when the group does not exist.
   */
  function CommandsFor(t: Tables, permission: Option<string>): (r: seq<CommandRow>)
    ensures permission.None? || permission == Some("") ==> r == t.commands
    ensures permission.Some? && permission.value != "" && t.permissionId(permission.value).None? ==> r == []
    ensures permission.Some? && permission.value != "" && t.permissionId(permission.value).Some? ==>
      forall c :: c in r <==> (c in t.commands && HasResponse(t.commands, t.permissionId(permission.value).value, c.id))
  {
    match permission
    case None => t.commands
    case Some(p) =>
      if p == "" then t.commands
      else match t.permissionId(p)
        case None => []
        case Some(id) => FilterById(t.commands, ResponseIds(t.commands, id))
  }

  /** `filter` keeps every listed row as often as the table holds it, and no other row. */
  lemma {:induction false} FilterByIdCounts(commands: seq<CommandRow>, ids: seq<string>)
    ensures forall c :: multiset(FilterById(commands, ids))[c] == if c.id in ids then multiset(commands)[c] else 0
  {
    if commands != [] {
      assert commands == [commands[0]] + commands[1..];
      FilterByIdCounts(commands[1..], ids);
    }
  }

  /** `filter` keeps the table order: filtering a concatenation filters each part in turn. */
  lemma {:induction false} FilterByIdAppend(a: seq<CommandRow>, b: seq<CommandRow>, ids: seq<string>)
    ensures FilterById(a + b, ids) == FilterById(a, ids) + FilterById(b, ids)
  {
    if a == [] {
      assert a + b == b;
    } else {
      assert (a + b)[0] == a[0] && (a + b)[1..] == a[1..] + b;
      FilterByIdAppend(a[1..], b, ids);
      var h := if a[0].id in ids then [a[0]] else [];
      assert h + (FilterById(a[1..], ids) + FilterById(b, ids)) == (h + FilterById(a[1..], ids)) + FilterById(b, ids);
    }
  }

  /**
   * For an existing group, `(list.command.<group>)` lists each command having a response
   * for the group exactly as often as the table holds it, and no other command.
   */
  lemma CommandsForCounts(t: Tables, permission: string)
    requires permission != "" && t.permissionId(permission).Some?
    ensures forall c :: multiset(CommandsFor(t, Some(permission)))[c] ==
                        if HasResponse(t.commands, t.permissionId(permission).value, c.id) then multiset(t.commands)[c] else 0
  {
    var id := t.permissionId(permission).value;
    FilterByIdCounts(t.commands, ResponseIds(t.commands, id));
  }

  function CommandNames(commands: seq<CommandRow>, keepBang: bool): (r: seq<string>)
    ensures |r| == |commands|
    ensures forall i :: 0 <= i < |r| ==> r[i] == (if keepBang then commands[i].command else StripBang(commands[i].command))
  {
    seq(|commands|, i requires 0 <= i < |commands| =>
      if keepBang then commands[i].command else StripBang(commands[i].command))
  }

  /** The digits of a fraction of 1000, zero-padded to three and without trailing zeros. */
  function FractionDigits(f: nat): (r: string)
    requires 0 < f < 1000
    ensures 1 <= |r| <= 3 && AllDigits(r) && r[|r| - 1] != '0'
  {
    var d := [DigitChar(f / 100), DigitChar(f / 10 % 10), DigitChar(f % 10)];
    if f % 100 == 0 then d[..1] else if f % 10 == 0 then d[..2] else d
  }

  /** `String(ms / 1000)`: the number of seconds in decimal notation. */
  function Seconds(ms: int): (r: string)
    ensures ms % 1000 == 0 && ms >= 0 ==> r == NatToString(ms / 1000)
    decreases if ms < 0 then 1 else 0
  {
    if ms < 0 then "-" + Seconds(-ms)
    else if ms % 1000 == 0 then NatToString(ms / 1000)
    else NatToString(ms / 1000) + "." + FractionDigits(ms % 1000)
  }

  /** The seconds text reads back as milliseconds: whole part, then the three fraction digits. */
  lemma SecondsRoundTrip(ms: nat)
    requires ms % 1000 != 0
    ensures var r := Seconds(ms); var w := NatToString(ms / 1000);
      r[..|w|] == w && r[|w|] == '.' && DigitsValue(w) * 1000 + FractionValue(r[|w| + 1..]) == ms
  {
    var w := NatToString(ms / 1000);
    var f := ms % 1000;
    var r := Seconds(ms);
    assert r == w + "." + FractionDigits(f);
    assert r[..|w|] == w && r[|w|] == '.' && r[|w| + 1..] == FractionDigits(f);
    assert DigitsValue(w) == ms / 1000 by { NatToStringRoundTrip(ms / 1000); }
    assert FractionValue(FractionDigits(f)) == f by { FractionRoundTrip(f); }
  }

  /** The fraction digits read back as the milliseconds they were written from. */
  lemma FractionRoundTrip(f: nat)
    requires 0 < f < 1000
    ensures FractionValue(FractionDigits(f)) == f
  {
    var fd := FractionDigits(f);
    var d := [DigitChar(f / 100), DigitChar(f / 10 % 10), DigitChar(f % 10)];
    if f % 100 == 0 {
      assert fd == [d[0]];
    } else if f % 10 == 0 {
      assert fd == [d[0], d[1]];
    } else {
      assert fd == [d[0], d[1], d[2]];
    }
  }


  /** The thousandths denoted by up to three fraction digits. */
  function FractionValue(s: string): nat
    requires |s| <= 3 && AllDigits(s)
  {
    if |s| == 0 then 0
    else if |s| == 1 then DigitValue(s[0]) * 100
    else if |s| == 2 then DigitValue(s[0]) * 100 + DigitValue(s[1]) * 10
    else DigitValue(s[0]) * 100 + DigitValue(s[1]) * 10 + DigitValue(s[2])
  }

  function CooldownText(c: Cooldown): string {
    c.name + ": " + Seconds(c.miliseconds) + "s"
  }

  function RankText(r: Rank): string {
    r.rank + " (" + IntToString(r.hours) + "h)"
  }

  function PriceText(t: Tables, p: PriceRow): string {
    p.command + " (" + IntToString(p.price) + t.pointsName(p.price) + ")"
  }

  predicate SortedByHours(s: seq<Rank>) {
    forall i, j :: 0 <= i < j < |s| ==> s[i].hours <= s[j].hours
  }

  function InsertRank(x: Rank, s: seq<Rank>): (r: seq<Rank>)
    requires SortedByHours(s)
    ensures SortedByHours(r) && multiset(r) == multiset(s) + multiset{x}
    decreases |s|
  {
    if s == [] || x.hours <= s[0].hours then
      RankCons(x, s);
      [x] + s
    else
      var t := InsertRank(x, s[1..]);
      RankLater(x, s, t);
      [s[0]] + t
  }

  /** A rank with no more hours than any of a sorted sequence goes first. */
  lemma RankCons(a: Rank, t: seq<Rank>)
    requires SortedByHours(t) && (t == [] || a.hours <= t[0].hours)
    ensures SortedByHours([a] + t)
  {
    var r := [a] + t;
    forall i, j | 0 <= i < j < |r| ensures r[i].hours <= r[j].hours {
      assert r[j] == t[j - 1];
      if i > 0 { assert r[i] == t[i - 1]; }
    }
  }

  /** A rank with more hours than the head goes into the tail, and the head stays first. */
  lemma RankLater(x: Rank, s: seq<Rank>, t: seq<Rank>)
    requires SortedByHours(s) && s != [] && x.hours > s[0].hours
    requires SortedByHours(t) && multiset(t) == multiset(s[1..]) + multiset{x}
    ensures SortedByHours([s[0]] + t) && multiset([s[0]] + t) == multiset(s) + multiset{x}
  {
    if t != [] {
      assert s[0].hours <= t[0].hours by {
        assert t[0] in multiset(t);
        assert t[0] == x || t[0] in s[1..];
      }
    }
    RankCons(s[0], t);
    assert s == [s[0]] + s[1..];
  }


  /** `_.orderBy(ranks, 'hours', 'asc')`: a permutation of the ranks by ascending hours. */
  function OrderByHours(s: seq<Rank>): (r: seq<Rank>)
    ensures SortedByHours(r) && multiset(r) == multiset(s)
    decreases |s|
  {
    if s == [] then []
    else
      assert s == [s[0]] + s[1..];
      InsertRank(s[0], OrderByHours(s[1..]))
  }

  /** The ranks with exactly `h` hours, in the order they appear. */
  function WithHours(s: seq<Rank>, h: int): seq<Rank>
    decreases |s|
  {
    if s == [] then [] else (if s[0].hours == h then [s[0]] else []) + WithHours(s[1..], h)
  }

  /** Inserting puts the new rank before every rank with the same hours and keeps their order. */
  lemma {:induction false} InsertRankStable(x: Rank, s: seq<Rank>, h: int)
    requires SortedByHours(s)
    ensures WithHours(InsertRank(x, s), h) == (if x.hours == h then [x] else []) + WithHours(s, h)
    decreases |s|
  {
    if s == [] || x.hours <= s[0].hours {
      assert InsertRank(x, s) == [x] + s;
      WithHoursCons(x, s, h);
    } else {
      var t := InsertRank(x, s[1..]);
      assert InsertRank(x, s) == [s[0]] + t;
      InsertRankStable(x, s[1..], h);
      WithHoursCons(s[0], t, h);
      assert s == [s[0]] + s[1..];
      WithHoursCons(s[0], s[1..], h);
      SwapHeads(if s[0].hours == h then [s[0]] else [], if x.hours == h then [x] else [], WithHours(s[1..], h));
    }
  }

  lemma SwapHeads(a: seq<Rank>, b: seq<Rank>, c: seq<Rank>)
    requires a == [] || b == []
    ensures a + (b + c) == b + (a + c)
  {
    if a == [] { assert a + (b + c) == b + c && a + c == c; } else { assert b + c == c; }
  }

  lemma WithHoursCons(a: Rank, t: seq<Rank>, h: int)
    ensures WithHours([a] + t, h) == (if a.hours == h then [a] else []) + WithHours(t, h)
  {
    assert ([a] + t)[1..] == t;
  }

  /**
   * `_.orderBy` is stable: the ranks with any given number of hours come out in the order
   * they went in. With `SortedByHours` and the multiset, this fixes the result.
   */
  lemma {:induction false} OrderByHoursStable(s: seq<Rank>, h: int)
    ensures WithHours(OrderByHours(s), h) == WithHours(s, h)
    decreases |s|
  {
    if s != [] {
      OrderByHoursStable(s[1..], h);
      InsertRankStable(s[0], OrderByHours(s[1..]), h);
    }
  }

  function MapText<T>(s: seq<T>, f: T -> string): (r: seq<string>)
    ensures |r| == |s| && forall i :: 0 <= i < |s| ==> r[i] == f(s[i])
  {
    seq(|s|, i requires 0 <= i < |s| => f(s[i]))
  }

  /** A joined list, or a single space when it comes out empty. */
  function NonEmpty(list: string): (r: string)
    ensures r != ""
    ensures list != "" ==> r == list
  {
    if |list| > 0 then list else " "
  }

  /** The system and optional permission named by `(list.<system>.<permission>)`. */
  function ListArgs(filter: string): (r: (string, Option<string>)) {
    var parts := Split(ReplaceFirst(ReplaceFirst(filter, "(list.", ""), ")", ""), ".");
    (parts[0], if |parts| > 1 then Some(parts[1]) else None)
  }

  /** The text `(list.<system>)` resolves to. */
  function List(t: Tables, filter: string): (r: string)
    ensures var (system, _) := ListArgs(filter);
      !(system in {"alias", "!alias", "command", "!command", "cooldown", "price", "ranks"}) ==> r == ""
    ensures ListArgs(filter).0 in {"cooldown", "price", "ranks"} ==> r != ""
  {
    var (system, permission) := ListArgs(filter);
    if system == "alias" then SortedList(AliasNames(t.aliases, false))
    else if system == "!alias" then SortedList(AliasNames(t.aliases, true))
    else if system == "command" then SortedList(CommandNames(CommandsFor(t, permission), false))
    else if system == "!command" then SortedList(CommandNames(CommandsFor(t, permission), true))
    else if system == "cooldown" then NonEmpty(Join(SortStrings(MapText(t.cooldowns, CooldownText)), ", "))
    else if system == "price" then NonEmpty(Join(MapText(t.prices, p => PriceText(t, p)), ", "))
    else if system == "ranks" then NonEmpty(Join(MapText(OrderByHours(t.ranks), RankText), ", "))
    else ""
  }
}
