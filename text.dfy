/**
 * The text overlay registry: `text::getOne` fills the custom variables `$_name` of a
 * stored text, runs the result through the message templating, and hands it to the
 * overlay. The custom-variable store and the templating are inputs.
 */
module Text {
  import opened Wrappers
  import opened JsString
  import opened Matcher

  datatype TextItem = TextItem(id: string, text: string)

  /** `customvariables.isVariableSet` and `customvariables.getValueOf`. */
  datatype Store = Store(isSet: string -> bool, valueOf: string -> Option<string>)

  /** `text.match(/\$_[a-zA-Z0-9_]+/g) || []`. */
  function VariablesIn(text: string): seq<string> {
    WordMatches(text, "$_", 0)
  }

  /** Every variable found is `$_` followed by one or more word characters, and occurs in the text. */
  lemma VariablesAreTokens(text: string)
    ensures forall k :: 0 <= k < |VariablesIn(text)| ==>
      var v := VariablesIn(text)[k];
      |v| > 2 && v[..2] == "$_" && WordCharsFrom(v, 2) && Contains(text, v)
  {
  }

  /** `` `<strong>$_${variable.replace('$_', '')}</strong>` ``, shown for a variable that is not set. */
  function Placeholder(variable: string): string {
    "<strong>$_" + ReplaceFirst(variable, "$_", "") + "</strong>"
  }

  /** The placeholder of a variable shows the variable itself in bold. */
  lemma PlaceholderShowsName(variable: string)
    requires |variable| >= 2 && variable[..2] == "$_"
    ensures Placeholder(variable) == "<strong>" + variable + "</strong>"
  {
    assert OccursAt(variable, "$_", 0);
    assert IndexOf(variable, "$_") == Some(0);
    assert variable == "$_" + variable[2..];
  }

  /** What an occurrence of `variable` becomes: its value (`''` when empty) if set, else the placeholder. */
  function ValueFor(store: Store, variable: string): (r: string)
    ensures store.isSet(variable) && store.valueOf(variable).Some? ==> r == store.valueOf(variable).value
    ensures store.isSet(variable) && store.valueOf(variable).None? ==> r == []
    ensures !store.isSet(variable) ==> r == Placeholder(variable)
  {
    if store.isSet(variable) then store.valueOf(variable).GetOr("") else Placeholder(variable)
  }

  /**
   * The text after the loop has handled `variables` in order: each one is replaced
   * everywhere with `text.replace(new RegExp('\\' + variable, 'g'), value)`.
   */
  function Substituted(text: string, variables: seq<string>, store: Store): string
    requires forall k :: 0 <= k < |variables| ==> variables[k] != []
  {
    if variables == [] then text
    else
      var last := variables[|variables| - 1];
      ReplaceAll(Substituted(text, variables[..|variables| - 1], store), [last], ValueFor(store, last))
  }

  /**
   * `text::getOne(id, callback)`: the arguments of the callbacks, in order. `parse` is
   * `new Message(text).parse()`, `None` when it rejects; the handler then stops before
   * any callback.
   */
  function Callbacks(items: seq<TextItem>, id: string, store: Store, parse: string -> Option<string>): (r: seq<Option<TextItem>>)
    ensures FindText(items, id).None? ==> r == [None]
    ensures FindText(items, id).Some? ==>
      var item := FindText(items, id).value;
      match parse(Substituted(item.text, VariablesIn(item.text), store))
      case None => r == []
      case Some(t) => r == [Some(item.(text := t)), None]
    ensures r == [] <==> FindText(items, id).Some? && parse(Substituted(FindText(items, id).value.text, VariablesIn(FindText(items, id).value.text), store)).None?
    ensures r != [] ==> r[|r| - 1] == None
  {
    match FindText(items, id)
    case None => [None]
    case Some(item) =>
      match parse(Substituted(item.text, VariablesIn(item.text), store))
      case None => []
      case Some(t) => [Some(item.(text := t)), None]
  }

  /** `findOne({ id })`. */
  function FindText(items: seq<TextItem>, id: string): (r: Option<TextItem>)
    ensures r.Some? ==> r.value in items && r.value.id == id
    ensures r.None? <==> forall k :: 0 <= k < |items| ==> items[k].id != id
    decreases |items|
  {
    if items == [] then None
    else if items[0].id == id then Some(items[0])
    else FindText(items[1..], id)
  }

  /** The `text::getOne` handler. */
  method GetOne(items: seq<TextItem>, id: string, store: Store, parse: string -> Option<string>)
    returns (callbacks: seq<Option<TextItem>>)
    ensures callbacks == Callbacks(items, id, store, parse)
  {
    var item := FindText(items, id);
    callbacks := [];
    if item.Some? {
      var text := FillVariables(item.value.text, VariablesIn(item.value.text), store);
      var parsed := parse(text);
      if parsed.None? {
        return;
      }
      callbacks := [Some(item.value.(text := parsed.value))];
    }
    callbacks := callbacks + [None];
  }

  /** The loop of `text::getOne`: every variable found, in order, replaced everywhere by its value. */
  method FillVariables(text: string, variables: seq<string>, store: Store) returns (out: string)
    requires forall k :: 0 <= k < |variables| ==> variables[k] != []
    ensures out == Substituted(text, variables, store)
  {
    out := text;
    var i := 0;
    while i < |variables|
      invariant 0 <= i <= |variables|
      invariant out == Substituted(text, variables[..i], store)
    {
      var variable := variables[i];
      var value := if store.isSet(variable) then store.valueOf(variable).GetOr("") else Placeholder(variable);
      assert ReplaceAll(out, [variable], value) == Substituted(text, variables[..i + 1], store) by {
        SubstitutedStep(text, variables, store, i);
      }
      out := ReplaceAll(out, [variable], value);
      i := i + 1;
    }
    assert variables[..i] == variables;
  }

  /** One more variable handled: its occurrences replaced in the text left by the ones before. */
  lemma SubstitutedStep(text: string, variables: seq<string>, store: Store, i: nat)
    requires i < |variables| && forall k :: 0 <= k < |variables| ==> variables[k] != []
    ensures Substituted(text, variables[..i + 1], store)
      == ReplaceAll(Substituted(text, variables[..i], store), [variables[i]], ValueFor(store, variables[i]))
  {
    assert variables[..i + 1][..i] == variables[..i];
  }

  /**
   * As written, a variable whose name begins with another variable's name loses its value:
   * replacing `$_a` everywhere also rewrites the start of `$_ab`, which is then no longer found.
   */
  lemma PrefixVariableLost(store: Store)
    requires store.isSet("$_a") && store.valueOf("$_a") == Some("x")
    requires store.isSet("$_ab") && store.valueOf("$_ab") == Some("y")
    ensures VariablesIn("$_a $_ab") == ["$_a", "$_ab"]
    ensures forall k :: 0 <= k < |VariablesIn("$_a $_ab")| ==> VariablesIn("$_a $_ab")[k] != []
    ensures Substituted("$_a $_ab", VariablesIn("$_a $_ab"), store) == "x xb"
  {
    ExampleVariables();
    var vs := ["$_a", "$_ab"];
    assert vs[..1] == ["$_a"] && vs[..1][..0] == [];
    ShortNameFirst();
    var t := "x xb";
    assert Substituted("$_a $_ab", vs[..1], store) == t;
    assert '$' !in t;
    AbsentHead(t, "$_ab", '$');
    ReplaceAllNoMatch(t, ["$_ab"], "y");
  }

  /** Replacing `$_a` everywhere in the example text also takes the head of `$_ab`. */
  lemma ShortNameFirst()
    ensures ReplaceAll("$_a $_ab", ["$_a"], "x") == "x xb"
  {
    var s := "$_a $_ab";
    assert s[..3] == "$_a" && s[4..7] == "$_a";
    FieldTwice(s, "$_a", "x");
    assert "x" + [s[3]] + "x" + [s[7]] == "x xb";
  }

  /**
   * In `p c p d`, with `c` not `$`, both occurrences of the `$`-field `p` are replaced,
   * whatever follows the second one.
   */
  lemma FieldTwice(s: string, p: string, v: string)
    requires |p| >= 2 && p[0] == '$' && '$' !in v && |s| == 2 * |p| + 2
    requires s[..|p|] == p && s[|p|] != '$' && s[|p| + 1..2 * |p| + 1] == p
    ensures ReplaceAll(s, [p], v) == v + [s[|p|]] + v + [s[|s| - 1]]
  {
    var n := |p|;
    var i1, i2, i3 := n, n + 1, 2 * n + 1;
    var r1, r2, r3 := ReplaceAllFrom(s, [p], v, i1), ReplaceAllFrom(s, [p], v, i2), ReplaceAllFrom(s, [p], v, i3);
    assert ReplaceAll(s, [p], v) == v + r1 by { MatchOne(s, p, v, 0); }
    assert r1 == [s[i1]] + r2 by {
      assert !OccursAt(s, p, i1) by { assert i1 + n <= |s| ==> s[i1..i1 + n][0] == s[i1]; }
      SkipOne(s, p, v, i1);
    }
    assert r2 == v + r3 by { MatchOne(s, p, v, i2); }
    assert r3 == [s[i3]] by {
      assert !OccursAt(s, p, i3);
      SkipOne(s, p, v, i3);
    }
    var a, b := s[i1], s[i3];
    assert v + ([a] + (v + [b])) == v + [a] + v + [b];
  }

  /** The words of the example text, position by position. */
  lemma ExampleWords()
    ensures WordAt("$_a $_ab", "$_", 0) == "$_a"
    ensures WordAt("$_a $_ab", "$_", 3) == []
    ensures WordAt("$_a $_ab", "$_", 4) == "$_ab"
    ensures WordAt("$_a $_ab", "$_", 8) == []
  {
    var s := "$_a $_ab";
    assert OccursAt(s, "$_", 0) by { assert s[0..2] == "$_"; }
    assert s[2..] == "a $_ab";
    assert WordPrefix("a $_ab") == "a" by { assert WordPrefix(" $_ab") == []; }
    assert !OccursAt(s, "$_", 3) by { assert s[3] != '$'; }
    assert OccursAt(s, "$_", 4) by { assert s[4..6] == "$_"; }
    assert s[6..] == "ab";
    assert WordPrefix("ab") == "ab" by { assert WordPrefix("b") == "b" by { assert WordPrefix("") == []; } }
  }

  /** The variables of the example text. */
  lemma ExampleVariables()
    ensures VariablesIn("$_a $_ab") == ["$_a", "$_ab"]
  {
    var s := "$_a $_ab";
    ExampleWords();
    assert WordMatches(s, "$_", 8) == [];
    assert WordMatches(s, "$_", 4) == ["$_ab"];
    assert WordMatches(s, "$_", 3) == ["$_ab"];
  }

  /**
   * Each variable token replaced by its own value, text between tokens copied: the
   * matches the loop finds, each filled in once where it was found.
   */
  function TokensReplaced(text: string, store: Store, i: nat): string
    requires i <= |text|
    decreases |text| - i
  {
    if i == |text| then []
    else
      var m := WordAt(text, "$_", i);
      if m != [] then ValueFor(store, m) + TokensReplaced(text, store, i + |m|)
      else [text[i]] + TokensReplaced(text, store, i + 1)
  }

  /** With whole-token replacement both variables keep their own values. */
  lemma PrefixVariableKept(store: Store)
    requires store.isSet("$_a") && store.valueOf("$_a") == Some("x")
    requires store.isSet("$_ab") && store.valueOf("$_ab") == Some("y")
    ensures TokensReplaced("$_a $_ab", store, 0) == "x y"
  {
    var s := "$_a $_ab";
    ExampleWords();
    assert TokensReplaced(s, store, 8) == [];
    assert TokensReplaced(s, store, 4) == "y" + [];
    assert TokensReplaced(s, store, 3) == [s[3]] + "y";
    assert TokensReplaced(s, store, 0) == "x" + [s[3]] + "y";
  }

  /** A text without `$` holds no token: whole-token replacement copies it. */
  lemma {:induction false} TokensReplacedPlain(text: string, store: Store, i: nat)
    requires i <= |text| && forall k :: i <= k < |text| ==> text[k] != '$'
    ensures TokensReplaced(text, store, i) == text[i..]
    decreases |text| - i
  {
    if i < |text| {
      assert !OccursAt(text, "$_", i) by {
        if i + 2 <= |text| { assert text[i..i + 2][0] == text[i]; }
      }
      TokensReplacedPlain(text, store, i + 1);
      assert text[i..] == [text[i]] + text[i + 1..];
    }
  }

  /** A text without `$` from index `i` on holds no variable there. */
  lemma {:induction false} NoVariablesPlain(text: string, i: nat)
    requires i <= |text| && forall k :: i <= k < |text| ==> text[k] != '$'
    ensures WordMatches(text, "$_", i) == []
    decreases |text| - i
  {
    assert !OccursAt(text, "$_", i) by {
      if i + 2 <= |text| { assert text[i..i + 2][0] == text[i]; }
    }
    if i < |text| {
      NoVariablesPlain(text, i + 1);
    }
  }

  /** On a text without `$` the loop as written and whole-token replacement agree: both keep it. */
  lemma PlainTextKept(text: string, store: Store)
    requires '$' !in text
    ensures VariablesIn(text) == []
    ensures Substituted(text, VariablesIn(text), store) == text
    ensures TokensReplaced(text, store, 0) == text
  {
    NoVariablesPlain(text, 0);
    TokensReplacedPlain(text, store, 0);
  }
}
