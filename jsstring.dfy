/**
 * The parts of ECMAScript's String built-ins the bot relies on: `trim`, `indexOf`,
 * `replace` with a string pattern (including the `$$`, `$&`, `` $` `` and `$'`
 * replacement patterns), a global regular-expression replace whose pattern is an
 * alternation of literals, `split`/`join`, `startsWith`/`endsWith`, and the
 * conversions between integers and decimal strings.
 */
module JsString {
  import opened Wrappers

  /** The characters ECMAScript calls WhiteSpace or LineTerminator: what `trim` strips and `\s` matches. */
  predicate IsWhite(c: char) {
    var n := c as int;
    (9 <= n <= 13) || n == 0x20 || n == 0xA0 || n == 0x1680 || (0x2000 <= n <= 0x200A) ||
    n == 0x2028 || n == 0x2029 || n == 0x202F || n == 0x205F || n == 0x3000 || n == 0xFEFF
  }

  /** A line terminator, the characters `.` does not match in a regular expression. */
  predicate IsLineTerminator(c: char) {
    c == '\n' || c == '\r' || c as int == 0x2028 || c as int == 0x2029
  }

  /** Every character is white space: `s.trim().length === 0`. */
  predicate IsBlank(s: string) {
    forall i :: 0 <= i < |s| ==> IsWhite(s[i])
  }

  /** Every character of `s` from index `a` up to `b` is white space. */
  predicate WhiteBetween(s: string, a: nat, b: nat)
    requires a <= b <= |s|
  {
    forall k :: a <= k < b ==> IsWhite(s[k])
  }

  function TrimStart(s: string): (r: string)
    ensures |r| <= |s| && r == s[|s| - |r|..]
    ensures r == [] || !IsWhite(r[0])
    ensures WhiteBetween(s, 0, |s| - |r|)
  {
    if s != [] && IsWhite(s[0]) then
      var r := TrimStart(s[1..]);
      assert forall k :: 1 <= k < |s| ==> s[k] == s[1..][k - 1];
      r
    else s
  }

  function TrimEnd(s: string): (r: string)
    ensures |r| <= |s| && r == s[..|r|]
    ensures r == [] || !IsWhite(r[|r| - 1])
    ensures WhiteBetween(s, |r|, |s|)
  {
    if s != [] && IsWhite(s[|s| - 1]) then
      var r := TrimEnd(s[..|s| - 1]);
      assert forall k :: 0 <= k < |s| - 1 ==> s[k] == s[..|s| - 1][k];
      r
    else s
  }

  /** `s.trim()`: the slice of `s` left after dropping white space at both ends. */
  function Trim(s: string): (r: string)
    ensures exists i, j :: 0 <= i <= j <= |s| && r == s[i..j] && WhiteBetween(s, 0, i) && WhiteBetween(s, j, |s|)
    ensures r == [] || (!IsWhite(r[0]) && !IsWhite(r[|r| - 1]))
  {
    TrimBothEnds(s);
    TrimEnd(TrimStart(s))
  }

  /** Trimming the start and then the end leaves a slice with white space only on both sides. */
  lemma TrimBothEnds(s: string)
    ensures var r := TrimEnd(TrimStart(s));
      exists i, j :: 0 <= i <= j <= |s| && r == s[i..j] && WhiteBetween(s, 0, i) && WhiteBetween(s, j, |s|)
    ensures var r := TrimEnd(TrimStart(s));
      r == [] || (!IsWhite(r[0]) && !IsWhite(r[|r| - 1]))
  {
    var t := TrimStart(s);
    var r := TrimEnd(t);
    var i := |s| - |t|;
    var j := i + |r|;
    assert r == s[i..j] && WhiteBetween(s, j, |s|) by { TrimSlice(s, t, r); }
    assert exists i, j :: 0 <= i <= j <= |s| && r == s[i..j] && WhiteBetween(s, 0, i) && WhiteBetween(s, j, |s|) by {
      assert 0 <= i <= j <= |s| && r == s[i..j] && WhiteBetween(s, 0, i) && WhiteBetween(s, j, |s|);
    }
    TrimEndsNotWhite(t, r);
  }

  /** The end trimmed off a text that does not start with white space starts with the same character. */
  lemma TrimEndsNotWhite(t: string, r: string)
    requires t == [] || !IsWhite(t[0])
    requires |r| <= |t| && r == t[..|r|] && (r == [] || !IsWhite(r[|r| - 1]))
    ensures r == [] || (!IsWhite(r[0]) && !IsWhite(r[|r| - 1]))
  {
    if r != [] {
      assert r[0] == t[0];
    }
  }

  /** A prefix `r` of a suffix `t` of `s` is the slice between them, and white after it in `t` is white in `s`. */
  lemma TrimSlice(s: string, t: string, r: string)
    requires |t| <= |s| && t == s[|s| - |t|..] && |r| <= |t| && r == t[..|r|] && WhiteBetween(t, |r|, |t|)
    ensures r == s[|s| - |t|..|s| - |t| + |r|] && WhiteBetween(s, |s| - |t| + |r|, |s|)
  {
    var i := |s| - |t|;
    assert forall k :: i + |r| <= k < |s| ==> s[k] == t[k - i];
  }

  lemma TrimBlank(s: string)
    ensures Trim(s) == [] <==> IsBlank(s)
  {
    var i, j :| 0 <= i <= j <= |s| && Trim(s) == s[i..j] && WhiteBetween(s, 0, i) && WhiteBetween(s, j, |s|);
    if IsBlank(s) {
      assert i < j ==> IsWhite(s[i]);
    } else {
      var k :| 0 <= k < |s| && !IsWhite(s[k]);
      assert WhiteBetween(s, 0, i) && WhiteBetween(s, j, |s|);
      assert !(k < i);
      assert !(j <= k);
    }
  }

  lemma TrimEmpty()
    ensures Trim("") == ""
  {
  }

  /** `p` occurs in `s` starting at index `i`. */
  predicate OccursAt(s: string, p: string, i: nat) {
    i + |p| <= |s| && s[i..i + |p|] == p
  }

  predicate StartsWith(s: string, p: string) {
    OccursAt(s, p, 0)
  }

  predicate EndsWith(s: string, p: string) {
    |p| <= |s| && s[|s| - |p|..] == p
  }

  function IndexOfFrom(s: string, p: string, k: nat): (r: Option<nat>)
    requires k <= |s|
    ensures r.Some? ==> k <= r.value && OccursAt(s, p, r.value)
    ensures r.Some? ==> forall j :: k <= j < r.value ==> !OccursAt(s, p, j)
    ensures r.None? ==> forall j :: k <= j <= |s| ==> !OccursAt(s, p, j)
    decreases |s| - k
  {
    if OccursAt(s, p, k) then Some(k)
    else if k == |s| then None
    else IndexOfFrom(s, p, k + 1)
  }

  /** `s.indexOf(p)`, `None` standing for -1. */
  function IndexOf(s: string, p: string): (r: Option<nat>)
    ensures r.Some? ==> OccursAt(s, p, r.value) && forall j :: 0 <= j < r.value ==> !OccursAt(s, p, j)
    ensures r.None? ==> forall j :: 0 <= j <= |s| ==> !OccursAt(s, p, j)
  {
    IndexOfFrom(s, p, 0)
  }

  predicate Contains(s: string, p: string) {
    IndexOf(s, p).Some?
  }

  /**
   * ECMAScript's GetSubstitution for a match without capture groups: in the replacement
   * text `$$` stands for `$`, `$&` for the matched text, `` $` `` for the text before the
   * match and `$'` for the text after it; every other `$` is literal.
   */
  function Substitute(repl: string, matched: string, before: string, after: string): string
    decreases |repl|
  {
    if repl == [] then []
    else if repl[0] == '$' && |repl| >= 2 && repl[1] == '$' then "$" + Substitute(repl[2..], matched, before, after)
    else if repl[0] == '$' && |repl| >= 2 && repl[1] == '&' then matched + Substitute(repl[2..], matched, before, after)
    else if repl[0] == '$' && |repl| >= 2 && repl[1] == '`' then before + Substitute(repl[2..], matched, before, after)
    else if repl[0] == '$' && |repl| >= 2 && repl[1] == '\'' then after + Substitute(repl[2..], matched, before, after)
    else [repl[0]] + Substitute(repl[1..], matched, before, after)
  }

  lemma {:induction false} SubstitutePlain(repl: string, matched: string, before: string, after: string)
    requires '$' !in repl
    ensures Substitute(repl, matched, before, after) == repl
    decreases |repl|
  {
    if repl != [] {
      assert repl[0] != '$';
      assert '$' !in repl[1..] by { assert forall k :: 0 <= k < |repl| - 1 ==> repl[1..][k] == repl[k + 1]; }
      SubstitutePlain(repl[1..], matched, before, after);
      assert repl == [repl[0]] + repl[1..];
    }
  }

  /** `s.replace(p, repl)` with a string pattern: only the first occurrence is replaced. */
  function ReplaceFirst(s: string, p: string, repl: string): string {
    match IndexOf(s, p)
    case None => s
    case Some(i) => s[..i] + Substitute(repl, p, s[..i], s[i + |p|..]) + s[i + |p|..]
  }

  lemma ReplaceFirstInEmpty(p: string, repl: string)
    requires p != []
    ensures ReplaceFirst("", p, repl) == ""
  {
    assert !OccursAt("", p, 0);
  }

  /**
   * Deleting the first `m` and trimming keeps an occurrence of `p`, when the two cannot
   * overlap: neither starts inside the other, they differ at index `t`, and `p` has no
   * white space at its ends.
   */
  lemma DeleteKeepsOccurrence(s: string, m: string, p: string, t: nat)
    requires m != [] && |p| >= 2 && t < |m| && t < |p| && m[t] != p[t]
    requires forall k :: 0 < k < |p| ==> p[k] != m[0]
    requires forall k :: 0 < k < |m| ==> m[k] != p[0]
    requires !IsWhite(p[0]) && !IsWhite(p[|p| - 1])
    requires Contains(s, p)
    ensures Contains(Trim(ReplaceFirst(s, m, "")), p)
  {
    var j := IndexOf(s, p).value;
    var s', j' := KeptOccurrence(s, m, p, t, j);
    TrimKeepsOccurrence(s', p, j');
  }

  /** Trimming keeps an occurrence of a text with no white space at its ends. */
  lemma TrimKeepsOccurrence(s: string, p: string, j: nat)
    requires |p| >= 2 && !IsWhite(p[0]) && !IsWhite(p[|p| - 1]) && OccursAt(s, p, j)
    ensures Contains(Trim(s), p)
  {
    var r := Trim(s);
    var a, b :| 0 <= a <= b <= |s| && r == s[a..b] && WhiteBetween(s, 0, a) && WhiteBetween(s, b, |s|);
    SliceKeepsOccurrence(s, p, j, a, b);
  }

  /** A slice with only white space outside it keeps an occurrence of a text with no white ends. */
  lemma SliceKeepsOccurrence(s: string, p: string, j: nat, a: nat, b: nat)
    requires |p| >= 2 && !IsWhite(p[0]) && !IsWhite(p[|p| - 1]) && OccursAt(s, p, j)
    requires a <= b <= |s| && WhiteBetween(s, 0, a) && WhiteBetween(s, b, |s|)
    ensures Contains(s[a..b], p)
  {
    var e := j + |p| - 1;
    assert s[j] == p[0] && s[e] == p[|p| - 1] by {
      assert s[j..j + |p|][0] == s[j] && s[j..j + |p|][|p| - 1] == s[e];
    }
    NotWhiteBound(s, j, a, b);
    NotWhiteBound(s, e, a, b);
    var r := s[a..b];
    SliceOfSlice(s, a, b, j - a, j - a + |p|);
    OccursContains(r, p, j - a);
  }

  /** An occurrence anywhere means `indexOf` finds one. */
  /** A character that is not white lies between the trimmed ends. */
  lemma NotWhiteBound(s: string, x: nat, a: nat, b: nat)
    requires x < |s| && !IsWhite(s[x]) && a <= b <= |s|
    requires WhiteBetween(s, 0, a) && WhiteBetween(s, b, |s|)
    ensures a <= x < b
  {
  }

  lemma SliceOfSlice(s: string, a: nat, b: nat, x: nat, y: nat)
    requires a <= b <= |s| && x <= y <= b - a
    ensures s[a..b][x..y] == s[a + x..a + y]
  {
    var r := s[a..b];
    assert forall k :: 0 <= k < |r| ==> r[k] == s[a + k];
    assert forall k :: 0 <= k < y - x ==> r[x..y][k] == r[x + k];
  }

  lemma OccursContains(s: string, p: string, j: nat)
    requires OccursAt(s, p, j)
    ensures Contains(s, p)
  {
    assert j <= |s|;
  }

  /** Occurrences of `m` at `i` and of `p` at `j` are disjoint. */
  lemma NoOverlap(s: string, m: string, p: string, t: nat, i: nat, j: nat)
    requires m != [] && |p| >= 2 && t < |m| && t < |p| && m[t] != p[t]
    requires forall k :: 0 < k < |p| ==> p[k] != m[0]
    requires forall k :: 0 < k < |m| ==> m[k] != p[0]
    requires OccursAt(s, m, i) && OccursAt(s, p, j)
    ensures j + |p| <= i || i + |m| <= j
  {
    if i == j {
      AgreeAt(s, m, i, p, j, i + t);
      assert false;
    } else if j < i < j + |p| {
      AgreeAt(s, m, i, p, j, i);
      assert false;
    } else if i < j < i + |m| {
      AgreeAt(s, m, i, p, j, j);
      assert false;
    }
  }

  /** Two occurrences covering the same index agree on the character there. */
  lemma AgreeAt(s: string, m: string, i: nat, p: string, j: nat, x: nat)
    requires OccursAt(s, m, i) && OccursAt(s, p, j) && i <= x < i + |m| && j <= x < j + |p|
    ensures m[x - i] == p[x - j]
  {
    assert s[i..i + |m|][x - i] == s[x] == s[j..j + |p|][x - j];
  }

  /** Where an occurrence of `p` at `j` lands once the first `m` is deleted. */
  lemma KeptOccurrence(s: string, m: string, p: string, t: nat, j: nat) returns (s': string, j': nat)
    requires m != [] && |p| >= 2 && t < |m| && t < |p| && m[t] != p[t]
    requires forall k :: 0 < k < |p| ==> p[k] != m[0]
    requires forall k :: 0 < k < |m| ==> m[k] != p[0]
    requires OccursAt(s, p, j)
    ensures s' == ReplaceFirst(s, m, "") && OccursAt(s', p, j')
  {
    match IndexOf(s, m)
    case None => s', j' := s, j;
    case Some(i) =>
      assert OccursAt(s, m, i);
      assert Substitute("", m, s[..i], s[i + |m|..]) == [];
      s' := s[..i] + s[i + |m|..];
      if j + |p| <= i {
        j' := j;
        assert s'[j..j + |p|] == s[j..j + |p|];
      } else if i + |m| <= j {
        j' := j - |m|;
        assert s'[j'..j' + |p|] == s[j..j + |p|];
      } else {
        NoOverlap(s, m, p, t, i, j);
        assert false;
      }
  }

  lemma ReplaceFirstAbsent(s: string, p: string, repl: string)
    requires forall j :: 0 <= j <= |s| ==> !OccursAt(s, p, j)
    ensures ReplaceFirst(s, p, repl) == s
  {
  }

  /** The first of `alts` that occurs at index `i` of `s`: the alternation tries them in order. */
  function FirstAltAt(s: string, alts: seq<string>, i: nat): (r: Option<string>)
    ensures r.Some? ==> r.value in alts && OccursAt(s, r.value, i)
    ensures r.None? ==> forall a :: a in alts ==> !OccursAt(s, a, i)
  {
    if alts == [] then None
    else if OccursAt(s, alts[0], i) then Some(alts[0])
    else FirstAltAt(s, alts[1..], i)
  }

  predicate NonEmptyAll(alts: seq<string>) {
    forall a :: a in alts ==> a != []
  }

  function ReplaceAllFrom(s: string, alts: seq<string>, repl: string, i: nat): string
    requires i <= |s| && NonEmptyAll(alts)
    decreases |s| - i
  {
    if i == |s| then []
    else match FirstAltAt(s, alts, i)
      case Some(a) => Substitute(repl, a, s[..i], s[i + |a|..]) + ReplaceAllFrom(s, alts, repl, i + |a|)
      case None => [s[i]] + ReplaceAllFrom(s, alts, repl, i + 1)
  }

  /**
   * `s.replace(/a1|a2|.../g, repl)` where every alternative is a literal: the text is
   * scanned left to right and each match is replaced; scanning resumes after it.
   */
  function ReplaceAll(s: string, alts: seq<string>, repl: string): string
    requires NonEmptyAll(alts)
  {
    ReplaceAllFrom(s, alts, repl, 0)
  }

  lemma {:induction false} ReplaceAllFromNoMatch(s: string, alts: seq<string>, repl: string, i: nat)
    requires i <= |s| && NonEmptyAll(alts)
    requires forall a, j :: a in alts && i <= j < |s| ==> !OccursAt(s, a, j)
    ensures ReplaceAllFrom(s, alts, repl, i) == s[i..]
    decreases |s| - i
  {
    if i < |s| {
      ReplaceAllFromNoMatch(s, alts, repl, i + 1);
      assert s[i..] == [s[i]] + s[i + 1..];
    }
  }

  /** A global replace changes nothing when no alternative occurs. */
  lemma ReplaceAllNoMatch(s: string, alts: seq<string>, repl: string)
    requires NonEmptyAll(alts)
    requires forall a, j :: a in alts && 0 <= j < |s| ==> !OccursAt(s, a, j)
    ensures ReplaceAll(s, alts, repl) == s
  {
    ReplaceAllFromNoMatch(s, alts, repl, 0);
  }

  /** A field met once in `$`-free text is replaced by its `$`-free value, and nothing else changes. */
  lemma FieldOnce(pre: string, p: string, post: string, v: string)
    requires p != [] && p[0] == '$' && '$' !in pre && '$' !in post && '$' !in v
    ensures ReplaceAll(pre + p + post, [p], v) == pre + v + post
  {
    var s := pre + p + post;
    var i := |pre| + |p|;
    assert ReplaceAllFrom(s, [p], v, 0) == pre + ReplaceAllFrom(s, [p], v, |pre|) by {
      FieldOnlyAt(pre, p, post);
      PrefixSkipped(s, p, v, 0, |pre|);
      assert s[0..|pre|] == pre;
    }
    assert ReplaceAllFrom(s, [p], v, |pre|) == v + ReplaceAllFrom(s, [p], v, i) by {
      assert s[|pre|..i] == p;
      MatchOne(s, p, v, |pre|);
    }
    assert ReplaceAllFrom(s, [p], v, i) == post by {
      FieldOnlyAt(pre, p, post);
      ReplaceAllFromNoMatch(s, [p], v, i);
      assert s[i..] == post;
    }
    assert pre + (v + post) == pre + v + post;
  }

  /** In `pre p post` with `$`-free `pre` and `post`, the field `p` starting with `$` occurs only after `pre`. */
  lemma FieldOnlyAt(pre: string, p: string, post: string)
    requires p != [] && p[0] == '$' && '$' !in pre && '$' !in post
    ensures var s := pre + p + post;
      forall j :: 0 <= j < |s| && (j < |pre| || |pre| + |p| <= j) ==> !OccursAt(s, p, j)
  {
    var s := pre + p + post;
    var i := |pre| + |p|;
    forall j | 0 <= j < |s| && (j < |pre| || i <= j) ensures !OccursAt(s, p, j) {
      assert s[j] != '$' by {
        if j < |pre| { assert s[j] == pre[j]; } else { assert s[j] == post[j - i]; }
      }
      if j + |p| <= |s| {
        assert s[j..j + |p|][0] == s[j];
      }
    }
  }

  /** Characters where the field does not start are copied. */
  lemma {:induction false} PrefixSkipped(s: string, p: string, v: string, i: nat, j: nat)
    requires i <= j <= |s| && p != []
    requires forall k :: i <= k < j ==> !OccursAt(s, p, k)
    ensures ReplaceAllFrom(s, [p], v, i) == s[i..j] + ReplaceAllFrom(s, [p], v, j)
    decreases j - i
  {
    if i < j {
      SkipOne(s, p, v, i);
      PrefixSkipped(s, p, v, i + 1, j);
      var rest := ReplaceAllFrom(s, [p], v, j);
      assert s[i..j] == [s[i]] + s[i + 1..j];
      assert s[i..j] + rest == [s[i]] + (s[i + 1..j] + rest);
    }
  }

  lemma SkipOne(s: string, p: string, v: string, i: nat)
    requires i < |s| && p != [] && !OccursAt(s, p, i)
    ensures ReplaceAllFrom(s, [p], v, i) == [s[i]] + ReplaceAllFrom(s, [p], v, i + 1)
  {
    assert FirstAltAt(s, [p], i) == None;
  }

  /** A match of the single pattern `p` at `i` is replaced by the `$`-free `v`, and scanning resumes after it. */
  lemma MatchOne(s: string, p: string, v: string, i: nat)
    requires p != [] && OccursAt(s, p, i) && '$' !in v
    ensures ReplaceAllFrom(s, [p], v, i) == v + ReplaceAllFrom(s, [p], v, i + |p|)
  {
    assert FirstAltAt(s, [p], i) == Some(p);
    SubstitutePlain(v, p, s[..i], s[i + |p|..]);
  }

  /** When `c` does not occur in `s`, no text starting with `c` occurs in `s`. */
  lemma AbsentHead(s: string, p: string, c: char)
    requires p != [] && p[0] == c && c !in s
    ensures forall j :: 0 <= j <= |s| ==> !OccursAt(s, p, j)
  {
    forall j | 0 <= j <= |s| ensures !OccursAt(s, p, j) {
      if j + |p| <= |s| {
        assert s[j..j + |p|][0] == s[j];
        assert s[j] in s;
      }
    }
  }

  /** The index of the last `c` in `s`, if any. */
  function LastIndexOfChar(s: string, c: char): (r: Option<nat>)
    ensures r.Some? ==> r.value < |s| && s[r.value] == c && c !in s[r.value + 1..]
    ensures r.None? ==> c !in s
    decreases |s|
  {
    if s == [] then None
    else if s[|s| - 1] == c then Some(|s| - 1)
    else match LastIndexOfChar(s[..|s| - 1], c)
      case Some(k) => assert s[k + 1..] == s[..|s| - 1][k + 1..] + [s[|s| - 1]]; Some(k)
      case None => assert s == s[..|s| - 1] + [s[|s| - 1]]; None
  }

  /** The text before the first line terminator. */
  function Line(s: string): (r: string)
    ensures |r| <= |s| && r == s[..|r|]
    ensures forall k :: 0 <= k < |r| ==> !IsLineTerminator(r[k])
    ensures |r| < |s| ==> IsLineTerminator(s[|r|])
    decreases |s|
  {
    if s == [] || IsLineTerminator(s[0]) then [] else [s[0]] + Line(s[1..])
  }

  /** `s.split(sep)` for a non-empty separator. */
  function Split(s: string, sep: string): (r: seq<string>)
    requires sep != []
    ensures |r| >= 1
    decreases |s|
  {
    match IndexOf(s, sep)
    case None => [s]
    case Some(i) => [s[..i]] + Split(s[i + |sep|..], sep)
  }

  /** `parts.join(sep)`. */
  function Join(parts: seq<string>, sep: string): string
    decreases |parts|
  {
    if parts == [] then ""
    else if |parts| == 1 then parts[0]
    else parts[0] + sep + Join(parts[1..], sep)
  }

  /** One step of `Split`: the text before the first separator, then the split of the rest. */
  lemma SplitStep(s: string, sep: string, i: nat)
    requires sep != [] && IndexOf(s, sep) == Some(i)
    ensures Split(s, sep) == [s[..i]] + Split(s[i + |sep|..], sep)
  {
  }

  /** Joining a part in front of at least one other part puts the separator between them. */
  lemma JoinCons(a: string, parts: seq<string>, sep: string)
    requires parts != []
    ensures Join([a] + parts, sep) == a + sep + Join(parts, sep)
  {
    assert ([a] + parts)[1..] == parts;
  }

  /** Text around an occurrence of `sep`: the part before, the separator, the part after. */
  lemma AroundOccurrence(s: string, sep: string, i: nat)
    requires OccursAt(s, sep, i)
    ensures s == s[..i] + sep + s[i + |sep|..]
  {
    assert s == s[..i] + s[i..i + |sep|] + s[i + |sep|..];
  }

  /** Splitting and joining again with the same separator gives back the text. */
  lemma {:induction false} JoinSplit(s: string, sep: string)
    requires sep != []
    ensures Join(Split(s, sep), sep) == s
    decreases |s|
  {
    match IndexOf(s, sep)
    case None =>
    case Some(i) =>
      var rest := s[i + |sep|..];
      JoinSplit(rest, sep);
      SplitStep(s, sep, i);
      JoinCons(s[..i], Split(rest, sep), sep);
      AroundOccurrence(s, sep, i);
  }

  /** No piece produced by `split` contains the separator. */
  lemma {:induction false} SplitPiecesFree(s: string, sep: string)
    requires sep != []
    ensures forall k :: 0 <= k < |Split(s, sep)| ==> !Contains(Split(s, sep)[k], sep)
    decreases |s|
  {
    match IndexOf(s, sep)
    case None =>
    case Some(i) =>
      var rest := s[i + |sep|..];
      SplitPiecesFree(rest, sep);
      var head := s[..i];
      forall j | 0 <= j <= |head| ensures !OccursAt(head, sep, j) {
        if OccursAt(head, sep, j) {
          assert s[j..j + |sep|] == head[j..j + |sep|];
          assert OccursAt(s, sep, j);
        }
      }
  }

  predicate IsDigit(c: char) {
    '0' <= c <= '9'
  }

  predicate AllDigits(s: string) {
    forall i :: 0 <= i < |s| ==> IsDigit(s[i])
  }

  function DigitChar(d: nat): (c: char)
    requires d < 10
    ensures IsDigit(c) && (c as int) - ('0' as int) == d
  {
    (('0' as int) + d) as char
  }

  function DigitValue(c: char): (d: nat)
    requires IsDigit(c)
    ensures d < 10
  {
    (c as int) - ('0' as int)
  }

  /** The value of a string of decimal digits (most significant first). */
  function DigitsValue(s: string): nat
    requires AllDigits(s)
    decreases |s|
  {
    if s == [] then 0 else DigitsValue(s[..|s| - 1]) * 10 + DigitValue(s[|s| - 1])
  }

  /** `String(n)` for a natural number: its decimal digits, without leading zeros. */
  function NatToString(n: nat): (r: string)
    ensures r != [] && AllDigits(r)
    ensures |r| > 1 ==> r[0] != '0'
    decreases n
  {
    if n < 10 then [DigitChar(n)] else NatToString(n / 10) + [DigitChar(n % 10)]
  }

  /** `String(n)` for an integer. */
  function IntToString(n: int): string {
    if n < 0 then "-" + NatToString(-n) else NatToString(n)
  }

  /** Reading back the digits of a number gives the number. */
  lemma {:induction false} NatToStringRoundTrip(n: nat)
    ensures DigitsValue(NatToString(n)) == n
    decreases n
  {
    if n >= 10 {
      NatToStringRoundTrip(n / 10);
      var r := NatToString(n);
      assert r[..|r| - 1] == NatToString(n / 10);
    }
  }

  /** The longest prefix of `s` made of decimal digits. */
  function DigitPrefix(s: string): (r: string)
    ensures |r| <= |s| && AllDigits(r) && r == s[..|r|]
    ensures |r| < |s| ==> !IsDigit(s[|r|])
    decreases |s|
  {
    if s != [] && IsDigit(s[0]) then [s[0]] + DigitPrefix(s[1..]) else []
  }

  /**
   * `parseInt(s, 10)`: leading white space is skipped, an optional sign is read, then the
   * longest run of digits; `None` stands for NaN (no digit at all).
   */
  function ParseInt(s: string): Option<int> {
    var t := TrimStart(s);
    var neg := t != [] && t[0] == '-';
    var body := if t != [] && (t[0] == '-' || t[0] == '+') then t[1..] else t;
    var d := DigitPrefix(body);
    var v: int := if d == [] then 0 else DigitsValue(d);
    if d == [] then None else Some(if neg then -v else v)
  }

  /** `parseInt` reads back what `String` writes. */
  lemma ParseIntRoundTrip(n: int)
    ensures ParseInt(IntToString(n)) == Some(n)
  {
    var m: nat := if n < 0 then -n else n;
    assert DigitsValue(NatToString(m)) == m by { NatToStringRoundTrip(m); }
    if n < 0 {
      assert IntToString(n)[1..] == NatToString(m);
      ParseNeg(IntToString(n));
    } else {
      ParsePos(NatToString(m));
    }
  }


  /** `parseInt` of an optional minus sign followed by digits only. */

  lemma ParseNeg(s: string)
    requires |s| >= 2 && s[0] == '-' && AllDigits(s[1..])
    ensures ParseInt(s) == Some(-(DigitsValue(s[1..]) as int))
  {
    var body := s[1..];
    assert TrimStart(s) == s by { assert !IsWhite(s[0]); }
    assert DigitPrefix(body) == body by { DigitPrefixAll(body); }
    assert body != [];
  }


  lemma ParsePos(digits: string)
    requires digits != [] && AllDigits(digits)
    ensures ParseInt(digits) == Some(DigitsValue(digits) as int)
  {
    assert IsDigit(digits[0]);
    assert TrimStart(digits) == digits;
    DigitPrefixAll(digits);
  }



  lemma {:induction false} DigitPrefixAll(s: string)
    requires AllDigits(s)
    ensures DigitPrefix(s) == s
    decreases |s|
  {
    if s != [] {
      DigitPrefixAll(s[1..]);
      assert s == [s[0]] + s[1..];
    }
  }

  predicate IsSignedDigits(s: string) {
    var body := if s != [] && (s[0] == '-' || s[0] == '+') then s[1..] else s;
    body != [] && AllDigits(body)
  }

  /**
   * `Number(s)` for the strings whose value is an integer written in decimal: `None` for
   * every other string (the fractional, exponent, hexadecimal and `Infinity` forms are
   * reported as not integral, see `IsNumericString` for whether they are NaN).
   */
  function StringToInt(s: string): Option<int> {
    var t := Trim(s);
    if t == [] then Some(0)
    else if IsSignedDigits(t) then ParseInt(t)
    else None
  }

  /** The position of the first `c` in `s`, if any. */
  function FindChar(s: string, c: char): (r: Option<nat>)
    ensures r.Some? ==> r.value < |s| && s[r.value] == c && c !in s[..r.value]
    ensures r.None? ==> c !in s
  {
    if s == [] then None
    else if s[0] == c then Some(0)
    else match FindChar(s[1..], c)
      case None => None
      case Some(k) => assert s[..k + 1] == [s[0]] + s[1..][..k]; Some(k + 1)
  }

  /** A StrUnsignedDecimalLiteral mantissa: digits, optionally with one `.`, at least one digit. */
  predicate IsMantissa(s: string) {
    match FindChar(s, '.')
    case None => s != [] && AllDigits(s)
    case Some(k) => AllDigits(s[..k]) && AllDigits(s[k + 1..]) && |s| > 1
  }

  predicate IsUnsignedDecimal(s: string) {
    s == "Infinity" ||
    match FindChar(s, 'e')
    case Some(k) => IsMantissa(s[..k]) && IsSignedDigits(s[k + 1..])
    case None =>
      match FindChar(s, 'E')
      case Some(k) => IsMantissa(s[..k]) && IsSignedDigits(s[k + 1..])
      case None => IsMantissa(s)
  }

  predicate IsRadixDigits(s: string, radix: nat) {
    s != [] && forall i :: 0 <= i < |s| ==>
      (IsDigit(s[i]) && DigitValue(s[i]) < radix) ||
      (radix == 16 && (('a' <= s[i] <= 'f') || ('A' <= s[i] <= 'F')))
  }

  /**
   * `!isNaN(Number(s))`: after trimming, the text is empty, a decimal literal with optional
   * sign, fraction and exponent, `Infinity`, or a `0x`/`0o`/`0b` integer.
   */
  predicate IsNumericString(s: string) {
    var t := Trim(s);
    t == [] ||
    (if t[0] == '-' || t[0] == '+' then IsUnsignedDecimal(t[1..]) else IsUnsignedDecimal(t)) ||
    (|t| > 2 && t[0] == '0' && (t[1] == 'x' || t[1] == 'X') && IsRadixDigits(t[2..], 16)) ||
    (|t| > 2 && t[0] == '0' && (t[1] == 'o' || t[1] == 'O') && IsRadixDigits(t[2..], 8)) ||
    (|t| > 2 && t[0] == '0' && (t[1] == 'b' || t[1] == 'B') && IsRadixDigits(t[2..], 2))
  }

  /** Every decimal integer string is numeric. */
  lemma IntStringIsNumeric(n: int)
    ensures IsNumericString(IntToString(n))
  {
    var s := IntToString(n);
    var digits := if n < 0 then NatToString(-n) else NatToString(n);
    TrimNoWhiteEnds(s);
    if n < 0 { assert s[1..] == digits; }
    DigitsNumeric(digits);
  }

  /** Trimming a text that neither starts nor ends with white space changes nothing. */
  lemma TrimNoWhiteEnds(s: string)
    requires s != [] && !IsWhite(s[0]) && !IsWhite(s[|s| - 1])
    ensures Trim(s) == s
  {
    assert TrimStart(s) == s;
  }

  lemma DigitsNumeric(digits: string)
    requires digits != [] && AllDigits(digits)
    ensures IsUnsignedDecimal(digits)
  {
    assert '.' !in digits && 'e' !in digits && 'E' !in digits;
    assert digits[0] != "Infinity"[0];
  }

  /**
   * The first UTF-16 code unit of a character: JavaScript compares strings code unit by
   * code unit, so a character outside the Basic Multilingual Plane sorts by its high surrogate.
   */
  function CodeUnit(c: char): int {
    if c as int < 0x10000 then c as int else 0xD800 + (c as int - 0x10000) / 0x400
  }

  /** `a` sorts before `b` when both are compared as UTF-16 code unit sequences. */
  predicate CharBefore(a: char, b: char) {
    CodeUnit(a) < CodeUnit(b) || (CodeUnit(a) == CodeUnit(b) && a < b)
  }

  /** `a <= b` in the order of JavaScript's default `Array.prototype.sort`. */
  predicate StrLe(a: string, b: string)
    decreases |a|
  {
    a == [] || (b != [] && (CharBefore(a[0], b[0]) || (a[0] == b[0] && StrLe(a[1..], b[1..]))))
  }

  lemma CharOrder(a: char, b: char)
    ensures a == b || CharBefore(a, b) || CharBefore(b, a)
    ensures !(CharBefore(a, b) && CharBefore(b, a))
    ensures !CharBefore(a, a)
  {
  }

  lemma {:induction false} StrLeTotal(a: string, b: string)
    ensures StrLe(a, b) || StrLe(b, a)
    decreases |a|
  {
    if a != [] && b != [] {
      CharOrder(a[0], b[0]);
      if a[0] == b[0] { StrLeTotal(a[1..], b[1..]); }
    }
  }

  lemma {:induction false} StrLeAntisymmetric(a: string, b: string)
    requires StrLe(a, b) && StrLe(b, a)
    ensures a == b
    decreases |a|
  {
    if a != [] {
      CharOrder(a[0], b[0]);
      StrLeAntisymmetric(a[1..], b[1..]);
      assert a == [a[0]] + a[1..] && b == [b[0]] + b[1..];
    }
  }

  lemma {:induction false} StrLeTransitive(a: string, b: string, c: string)
    requires StrLe(a, b) && StrLe(b, c)
    ensures StrLe(a, c)
    decreases |a|
  {
    if a != [] {
      if a[0] == b[0] && b[0] == c[0] {
        StrLeTransitive(a[1..], b[1..], c[1..]);
      }
    }
  }

  predicate SortedStrings(s: seq<string>) {
    forall i, j :: 0 <= i < j < |s| ==> StrLe(s[i], s[j])
  }

  function InsertString(x: string, s: seq<string>): (r: seq<string>)
    requires SortedStrings(s)
    ensures SortedStrings(r) && multiset(r) == multiset(s) + multiset{x}
    decreases |s|
  {
    if s == [] then [x]
    else if StrLe(x, s[0]) then
      InsertFirst(x, s);
      [x] + s
    else
      var t := InsertString(x, s[1..]);
      InsertLater(x, s, t);
      [s[0]] + t
  }

  /** A string no greater than the head of a sorted sequence goes first. */
  lemma InsertFirst(x: string, s: seq<string>)
    requires SortedStrings(s) && s != [] && StrLe(x, s[0])
    ensures SortedStrings([x] + s)
  {
    assert forall j :: 0 <= j < |s| ==> StrLe(x, s[j]) by {
      forall j | 0 <= j < |s| ensures StrLe(x, s[j]) {
        if j > 0 { StrLeTransitive(x, s[0], s[j]); }
      }
    }
    SortedCons(x, s);
  }

  /** A string greater than the head goes into the tail, and the head stays first. */
  lemma InsertLater(x: string, s: seq<string>, t: seq<string>)
    requires SortedStrings(s) && s != [] && !StrLe(x, s[0])
    requires SortedStrings(t) && multiset(t) == multiset(s[1..]) + multiset{x}
    ensures SortedStrings([s[0]] + t) && multiset([s[0]] + t) == multiset(s) + multiset{x}
  {
    assert forall j :: 0 <= j < |t| ==> StrLe(s[0], t[j]) by {
      StrLeTotal(x, s[0]);
      forall j | 0 <= j < |t| ensures StrLe(s[0], t[j]) {
        assert t[j] in multiset(t);
        assert t[j] == x || t[j] in s[1..];
      }
    }
    SortedCons(s[0], t);
    assert s == [s[0]] + s[1..];
  }


  /** A head no greater than anything in a sorted tail keeps the sequence sorted. */
  lemma SortedCons(a: string, t: seq<string>)
    requires SortedStrings(t) && forall j :: 0 <= j < |t| ==> StrLe(a, t[j])
    ensures SortedStrings([a] + t)
  {
    var r := [a] + t;
    forall i, j | 0 <= i < j < |r| ensures StrLe(r[i], r[j]) {
      assert r[j] == t[j - 1];
      if i > 0 { assert r[i] == t[i - 1]; }
    }
  }


  /** `names.sort()`: the strings in ascending code-unit order, as a permutation of the input. */
  function SortStrings(s: seq<string>): (r: seq<string>)
    ensures SortedStrings(r) && multiset(r) == multiset(s)
    decreases |s|
  {
    if s == [] then []
    else
      assert s == [s[0]] + s[1..];
      InsertString(s[0], SortStrings(s[1..]))
  }
}
