/**
 * How a pass runner turns a filter key into a regular expression and lists its matches
 * (`this.message.match(new RegExp('(' + regexp + ')', 'g'))`).
 *
 * Every character of the key is escaped except `#`, which becomes a capture group whose
 * shape depends on the runner. A key without `#` is therefore a literal, and so are its
 * matches. The variables runner's `[a-zA-Z0-9_]+` is matched here character by character.
 * The other group shapes are lazy or greedy regular-expression searches that the model
 * takes from an oracle, keeping only the answers that have the shape every such match
 * has: a non-empty piece of the text that starts with the key's text before its first
 * `#` and ends with the key's text after its last `#`.
 */
module Matcher {
  import opened JsString

  /** The five pass runners, each with its own meaning for `#`. */
  datatype Mode = Each | Variables | Eval | Online | Command

  /** The capture group a `#` stands for. */
  datatype Wildcard =
    | LazyWord    // `(\b.+?\b)`: the each-runner for keys starting with `$`
    | LazyText    // `([\S ]+?)`: the each-runner for every other key
    | WordRun     // `([a-zA-Z0-9_]+)`: the variables runner
    | GreedyText  // `([\S ]+)`: the eval runner
    | NonSpace    // `(\S+)`: the online runner
    | LazyAny     // `.*?`: the command runner

  datatype Pattern =
    | Literal(text: string)
    | Word(prefix: string)
    | Wild(key: string, kind: Wildcard)

  function WildcardOf(key: string, mode: Mode): Wildcard {
    match mode
    case Each => if key != [] && key[0] == '$' then LazyWord else LazyText
    case Variables => WordRun
    case Eval => GreedyText
    case Online => NonSpace
    case Command => LazyAny
  }

  function Compile(key: string, mode: Mode): (p: Pattern)
    ensures '#' !in key ==> p == Literal(key)
    ensures p.Word? ==> mode == Variables && key == p.prefix + "#"
  {
    if '#' !in key then Literal(key)
    else if mode == Variables && key[|key| - 1] == '#' && '#' !in key[..|key| - 1] then
      assert key == key[..|key| - 1] + "#";
      Word(key[..|key| - 1])
    else Wild(key, WildcardOf(key, mode))
  }

  /** The regular-expression class `[a-zA-Z0-9_]`. */
  predicate IsWordChar(c: char) {
    ('a' <= c <= 'z') || ('A' <= c <= 'Z') || ('0' <= c <= '9') || c == '_'
  }

  /** Every character of `r` from index `n` on is a word character. */
  predicate WordCharsFrom(r: string, n: nat) {
    forall c :: n <= c < |r| ==> IsWordChar(r[c])
  }

  /** The longest prefix of `s` made of word characters (a greedy `[a-zA-Z0-9_]*`). */
  function WordPrefix(s: string): (r: string)
    ensures |r| <= |s| && r == s[..|r|]
    ensures forall i :: 0 <= i < |r| ==> IsWordChar(r[i])
    ensures |r| < |s| ==> !IsWordChar(s[|r|])
    decreases |s|
  {
    if s != [] && IsWordChar(s[0]) then [s[0]] + WordPrefix(s[1..]) else []
  }

  /** The non-overlapping occurrences of a literal, scanning from index `i`. */
  function LiteralMatches(s: string, p: string, i: nat): (r: seq<string>)
    requires p != [] && i <= |s|
    ensures forall k :: 0 <= k < |r| ==> r[k] == p
    decreases |s| - i
  {
    if OccursAt(s, p, i) then [p] + LiteralMatches(s, p, i + |p|)
    else if i == |s| then []
    else LiteralMatches(s, p, i + 1)
  }

  /** The word-shaped match `prefix[a-zA-Z0-9_]+` starting at `i`, if there is one. */
  function WordAt(s: string, prefix: string, i: nat): (r: string)
    requires i <= |s|
    ensures r != [] ==> OccursAt(s, r, i) && |r| > |prefix| && r[..|prefix|] == prefix
    ensures r != [] ==> WordCharsFrom(r, |prefix|)
  {
    if OccursAt(s, prefix, i) then
      var w := WordPrefix(s[i + |prefix|..]);
      if w == [] then []
      else
        assert s[i..i + |prefix| + |w|] == prefix + w;
        assert forall c :: |prefix| <= c < |prefix + w| ==> (prefix + w)[c] == w[c - |prefix|];
        prefix + w
    else []
  }

  /** A piece of `s` made of `prefix` and one or more word characters. */
  predicate IsWordMatch(s: string, prefix: string, m: string) {
    |m| > |prefix| && m[..|prefix|] == prefix && Contains(s, m) && WordCharsFrom(m, |prefix|)
  }

  /** The matches of `prefix[a-zA-Z0-9_]+` scanning from index `i`, as a global regular expression does. */
  function WordMatches(s: string, prefix: string, i: nat): (r: seq<string>)
    requires i <= |s|
    ensures forall k :: 0 <= k < |r| ==> IsWordMatch(s, prefix, r[k])
    decreases |s| - i
  {
    var m := WordAt(s, prefix, i);
    if m != [] then
      assert OccursAt(s, m, i);
      assert IsWordMatch(s, prefix, m);
      [m] + WordMatches(s, prefix, i + |m|)
    else if i == |s| then []
    else WordMatches(s, prefix, i + 1)
  }

  /** The text of a key before its first `#`. */
  function Head(key: string): (r: string)
    ensures |r| <= |key| && r == key[..|r|] && '#' !in r
    decreases |key|
  {
    if key == [] || key[0] == '#' then []
    else
      var t := Head(key[1..]);
      assert [key[0]] + t == key[..|t| + 1];
      [key[0]] + t
  }

  /** The text of a key after its last `#`. */
  function Tail(key: string): (r: string)
    ensures |r| <= |key| && r == key[|key| - |r|..] && '#' !in r
    decreases |key|
  {
    if key == [] || key[|key| - 1] == '#' then []
    else
      var t := Tail(key[..|key| - 1]);
      assert t + [key[|key| - 1]] == key[|key| - |t| - 1..];
      t + [key[|key| - 1]]
  }

  /** What every match of a key with wildcards looks like. */
  predicate Admissible(key: string, s: string, m: string) {
    m != [] && Contains(s, m) && StartsWith(m, Head(key)) && EndsWith(m, Tail(key))
  }

  function FilterAdmissible(key: string, s: string, ms: seq<string>): (r: seq<string>)
    ensures forall k :: 0 <= k < |r| ==> Admissible(key, s, r[k])
    decreases |ms|
  {
    if ms == [] then []
    else if Admissible(key, s, ms[0]) then [ms[0]] + FilterAdmissible(key, s, ms[1..])
    else FilterAdmissible(key, s, ms[1..])
  }

  /** The answers of the regular-expression engine for the group shapes not matched here. */
  type RegexOracle = (string, Wildcard, string) -> seq<string>

  /** The matches of `key` in `s` for the given runner, in the order the engine reports them. */
  function MatchAll(rx: RegexOracle, key: string, mode: Mode, s: string): (r: seq<string>)
    requires key != []
    ensures forall k :: 0 <= k < |r| ==> r[k] != [] && Contains(s, r[k])
    ensures '#' !in key ==> forall k :: 0 <= k < |r| ==> r[k] == key
  {
    match Compile(key, mode)
    case Literal(p) =>
      var r := LiteralMatches(s, p, 0);
      assert forall k :: 0 <= k < |r| ==> Contains(s, r[k]) by {
        forall k | 0 <= k < |r| ensures Contains(s, r[k]) {
          LiteralMatchesOccur(s, p, 0);
        }
      }
      r
    case Word(prefix) => WordMatches(s, prefix, 0)
    case Wild(_, kind) => FilterAdmissible(key, s, rx(key, kind, s))
  }

  lemma {:induction false} LiteralMatchesOccur(s: string, p: string, i: nat)
    requires p != [] && i <= |s|
    ensures LiteralMatches(s, p, i) != [] ==> Contains(s, p)
    decreases |s| - i
  {
    if OccursAt(s, p, i) {
    } else if i < |s| {
      LiteralMatchesOccur(s, p, i + 1);
    }
  }

  /** An occurrence at or after `i` means the scan from `i` reports something. */
  lemma {:induction false} LiteralMatchesFound(s: string, p: string, i: nat, j: nat)
    requires p != [] && i <= j && OccursAt(s, p, j)
    ensures LiteralMatches(s, p, i) != []
    decreases j - i
  {
    if !OccursAt(s, p, i) {
      LiteralMatchesFound(s, p, i + 1, j);
    }
  }

  /** A key without `#` that occurs in the text has at least one match. */
  lemma LiteralKeyFound(rx: RegexOracle, key: string, mode: Mode, s: string)
    requires key != [] && '#' !in key && Contains(s, key)
    ensures MatchAll(rx, key, mode, s) != []
  {
    LiteralMatchesFound(s, key, 0, IndexOf(s, key).value);
  }

  /** A key whose first character is not `#` has no match in a text lacking that character. */
  lemma NoMatchWithoutHead(rx: RegexOracle, key: string, mode: Mode, s: string)
    requires key != [] && key[0] != '#' && key[0] !in s
    ensures MatchAll(rx, key, mode, s) == []
  {
    MatchesShowHead(rx, key, mode, s);
  }

  /** Every match begins with the key's first character, so that character occurs in the text. */
  lemma MatchesShowHead(rx: RegexOracle, key: string, mode: Mode, s: string)
    requires key != [] && key[0] != '#'
    ensures MatchAll(rx, key, mode, s) != [] ==> key[0] in s
  {
    var r := MatchAll(rx, key, mode, s);
    if r != [] {
      var m := r[0];
      assert m[0] == key[0] by {
        match Compile(key, mode)
        case Literal(p) =>
        case Word(prefix) => assert key == prefix + "#";
        case Wild(_, _) =>
      }
      var j := IndexOf(s, m).value;
      assert s[j..j + |m|][0] == s[j];
    }
  }
}
