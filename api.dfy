/**
 * The api pass of `Message.parse`: the first `(api|http…)` token names a URL, the token is
 * removed, the URL is fetched, and every `(api.path)` token is replaced by the value the
 * path reaches in the response body (or the whole body replaces `(api._response)`).
 *
 * Its regular expressions carry the `i` flag; for the letters they contain that is ASCII
 * case folding.
 */
module Api {
  import opened Wrappers
  import opened JsString
  import Json

  /** ASCII lower case, which is how the `i` flag compares the letters of these patterns. */
  function Lower(c: char): char {
    if 'A' <= c <= 'Z' then ((c as int) + 32) as char else c
  }

  /** The lower-case text `p` occurs at index `i` of `s`, ignoring case. */
  predicate OccursAtCI(s: string, p: string, i: nat) {
    i + |p| <= |s| && forall k :: 0 <= k < |p| ==> Lower(s[i + k]) == p[k]
  }

  /** The end of the run of non-white characters that starts at `i` (a greedy `\S*`). */
  function RunEnd(s: string, i: nat): (e: nat)
    requires i <= |s|
    ensures i <= e <= |s|
    ensures forall k :: i <= k < e ==> !IsWhite(s[k])
    ensures e < |s| ==> IsWhite(s[e])
    decreases |s| - i
  {
    if i < |s| && !IsWhite(s[i]) then RunEnd(s, i + 1) else i
  }

  /** The last index in `lo..hi` holding `c`. */
  function LastCharIn(s: string, c: char, lo: nat, hi: nat): (r: Option<nat>)
    requires lo <= hi <= |s|
    ensures r.Some? ==> lo <= r.value < hi && s[r.value] == c && forall k :: r.value < k < hi ==> s[k] != c
    ensures r.None? ==> forall k :: lo <= k < hi ==> s[k] != c
    decreases hi - lo
  {
    if lo == hi then None
    else if s[hi - 1] == c then Some(hi - 1)
    else LastCharIn(s, c, lo, hi - 1)
  }

  // ---------------------------------------------------------------- `\(api\|(http\S+)\)`

  /**
   * The closing parenthesis of a match of `\(api\|(http\S+)\)` starting at `i`: after
   * `(api|http`, the greedy `\S+` backs off to the last `)` of the non-white run.
   */
  function CallAt(s: string, i: nat): (r: Option<nat>)
    requires i <= |s|
    ensures r.Some? ==> OccursAtCI(s, "(api|http", i) && i + 10 <= r.value < |s| && s[r.value] == ')'
    ensures r.Some? ==> forall k :: i + 9 <= k < r.value ==> !IsWhite(s[k])
  {
    if OccursAtCI(s, "(api|http", i) then
      var e := RunEnd(s, i + 9);
      if e < i + 10 then None else LastCharIn(s, ')', i + 10, e)
    else None
  }

  /** No match of the api pattern starts in `lo..hi` (where `hi` may be one past the end). */
  predicate NoCallIn(s: string, lo: nat, hi: nat)
    requires lo <= hi <= |s| + 1
  {
    forall j :: lo <= j < hi ==> CallAt(s, j).None?
  }

  /** The leftmost match at or after `i`: where it starts and where its `)` is. */
  function FindCall(s: string, i: nat): (r: Option<(nat, nat)>)
    requires i <= |s|
    ensures r.Some? ==> i <= r.value.0 <= |s| && CallAt(s, r.value.0) == Some(r.value.1)
    ensures r.Some? ==> NoCallIn(s, i, r.value.0)
    ensures r.None? ==> NoCallIn(s, i, |s| + 1)
    decreases |s| - i
  {
    match CallAt(s, i)
    case Some(c) => Some((i, c))
    case None =>
      if i == |s| then None
      else
        var r := FindCall(s, i + 1);
        NoCallStep(s, i, if r.Some? then r.value.0 else |s| + 1);
        r
  }

  lemma NoCallStep(s: string, i: nat, hi: nat)
    requires i < hi <= |s| + 1 && CallAt(s, i).None? && NoCallIn(s, i + 1, hi)
    ensures NoCallIn(s, i, hi)
  {
  }


  // ---------------------------------------------------------------- `\(api\.(?!_response)(\S*?)\)` with the `g` flag

  /** The first index from `i` on holding `)` or white space: where a lazy `\S*?\)` stops. */
  function StopAt(s: string, i: nat): (k: nat)
    requires i <= |s|
    ensures i <= k <= |s|
    ensures forall j :: i <= j < k ==> s[j] != ')' && !IsWhite(s[j])
    ensures k < |s| ==> s[k] == ')' || IsWhite(s[k])
    decreases |s| - i
  {
    if i == |s| || s[i] == ')' || IsWhite(s[i]) then i else StopAt(s, i + 1)
  }

  /** The closing parenthesis of an accessor token starting at `i`, if one starts there. */
  function AccessorAt(s: string, i: nat): (r: Option<nat>)
    requires i <= |s|
    ensures r.Some? ==> OccursAtCI(s, "(api.", i) && !OccursAtCI(s, "_response", i + 5)
    ensures r.Some? ==> i + 5 <= r.value < |s| && s[r.value] == ')'
    ensures r.Some? ==> forall j :: i <= j <= r.value ==> !IsWhite(s[j])
  {
    if OccursAtCI(s, "(api.", i) && !OccursAtCI(s, "_response", i + 5) then
      var k := StopAt(s, i + 5);
      if k < |s| && s[k] == ')' then
        assert forall j :: i <= j < i + 5 ==> Lower(s[j]) == "(api."[j - i];
        Some(k)
      else None
    else None
  }

  /** Every accessor token, scanning from `i`; scanning resumes after each token. */
  function Accessors(s: string, i: nat): (r: seq<string>)
    requires i <= |s|
    ensures forall k :: 0 <= k < |r| ==> |r[k]| >= 6 && OccursAtCI(r[k], "(api.", 0) && r[k][|r[k]| - 1] == ')'
    ensures forall k :: 0 <= k < |r| ==> !OccursAtCI(r[k], "_response", 5)
    ensures forall k :: 0 <= k < |r| ==> forall j :: 0 <= j < |r[k]| ==> !IsWhite(r[k][j])
    decreases |s| - i
  {
    if i == |s| then []
    else match AccessorAt(s, i)
      case Some(c) =>
        var t := s[i..c + 1];
        assert forall j :: 0 <= j < |t| ==> t[j] == s[i + j];
        [t] + Accessors(s, c + 1)
      case None => Accessors(s, i + 1)
  }

  /** The token that asks for the whole body is never taken for an accessor. */
  lemma ResponseNotAccessor(s: string)
    ensures "(api._response)" !in Accessors(s, 0)
  {
    assert OccursAtCI("(api._response)", "_response", 5);
  }

  // ---------------------------------------------------------------- `/(\S+)\[(\d+)\]/` on one path segment

  /** The end of the run of digits starting at `i`. */
  function DigitsEnd(s: string, i: nat): (e: nat)
    requires i <= |s|
    ensures i <= e <= |s| && (forall k :: i <= k < e ==> IsDigit(s[k])) && (e < |s| ==> !IsDigit(s[e]))
    decreases |s| - i
  {
    if i < |s| && IsDigit(s[i]) then DigitsEnd(s, i + 1) else i
  }

  /** A `[` at `p` followed by one or more digits and a `]`. */
  predicate IndexAt(s: string, p: nat) {
    p < |s| && s[p] == '[' && var e := DigitsEnd(s, p + 1); p + 1 < e < |s| && s[e] == ']'
  }

  /** The last `p` in `lo..hi` where an index starts: the greedy `\S+` backing off. */
  function LastIndexIn(s: string, lo: nat, hi: nat): (r: Option<nat>)
    requires lo <= hi <= |s|
    ensures r.Some? ==> lo <= r.value < hi && IndexAt(s, r.value) && forall k :: r.value < k < hi ==> !IndexAt(s, k)
    ensures r.None? ==> forall k :: lo <= k < hi ==> !IndexAt(s, k)
    decreases hi - lo
  {
    if lo == hi then None
    else if IndexAt(s, hi - 1) then Some(hi - 1)
    else LastIndexIn(s, lo, hi - 1)
  }

  /** The `[` of a match of `(\S+)\[(\d+)\]` starting at `q`. */
  function BracketFrom(s: string, q: nat): (r: Option<nat>)
    requires q <= |s|
    ensures r.Some? ==> q < r.value && IndexAt(s, r.value) && forall k :: q <= k < r.value ==> !IsWhite(s[k])
  {
    var e := RunEnd(s, q);
    if e <= q then None else LastIndexIn(s, q + 1, e)
  }

  /** The leftmost match from `q` on: its start and its `[`. */
  function FindBracket(s: string, q: nat): (r: Option<(nat, nat)>)
    requires q <= |s|
    ensures r.Some? ==> q <= r.value.0 <= |s| && BracketFrom(s, r.value.0) == Some(r.value.1)
    ensures r.None? ==> forall j :: q <= j <= |s| ==> BracketFrom(s, j).None?
    decreases |s| - q
  {
    match BracketFrom(s, q)
    case Some(p) => Some((q, p))
    case None => if q == |s| then None else FindBracket(s, q + 1)
  }

  /** The two groups `(\S+)` and `(\d+)` of a segment written `name[index]`. */
  function IndexedSegment(id: string): (r: Option<(string, string)>)
    ensures r.Some? ==> r.value.0 != [] && r.value.1 != [] && AllDigits(r.value.1)
  {
    match FindBracket(id, 0)
    case None => None
    case Some((q, p)) =>
      var e := DigitsEnd(id, p + 1);
      Some((id[q..p], id[p + 1..e]))
  }

  // ---------------------------------------------------------------- walking the response

  /** Where a property access leads: a value (`None` for `undefined`), or a `TypeError`. */
  datatype Step = Reached(v: Option<Json.Json>) | Threw

  /** `path[key]`: property access on `undefined` or `null` throws. */
  function GetStep(path: Option<Json.Json>, key: string): (r: Step)
    ensures path.None? || path == Some(Json.JNull) <==> r == Threw
  {
    match path
    case None => Threw
    case Some(j) => if j.JNull? then Threw else Reached(Json.Get(j, key))
  }

  /** One segment: `path[name][index]` for `name[index]`, `path[id]` otherwise. */
  function SegmentStep(path: Option<Json.Json>, id: string): Step {
    match IndexedSegment(id)
    case Some((name, index)) =>
      (match GetStep(path, name) case Threw => Threw case Reached(q) => GetStep(q, index))
    case None => GetStep(path, id)
  }

  /** The segments applied from left to right, stopping at the first that throws. */
  function Walk(path: Option<Json.Json>, ids: seq<string>): Step
    decreases |ids|
  {
    if ids == [] then Reached(path)
    else match SegmentStep(path, ids[0])
      case Threw => Threw
      case Reached(q) => Walk(q, ids[1..])
  }

  /** Walking a path in two parts is walking the first part, then the second from where it led. */
  lemma {:induction false} WalkAppend(path: Option<Json.Json>, a: seq<string>, b: seq<string>)
    ensures Walk(path, a + b) == match Walk(path, a) case Threw => Threw case Reached(q) => Walk(q, b)
    decreases |a|
  {
    if a == [] {
      assert a + b == b;
    } else {
      assert (a + b)[0] == a[0] && (a + b)[1..] == a[1..] + b;
      match SegmentStep(path, a[0])
      case Threw =>
      case Reached(q) => WalkAppend(q, a[1..], b);
    }
  }

  /** A segment written `name[i]`, `name` free of white space, indexes `name` and then `i`. */
  lemma IndexedSegmentSplits(name: string, i: nat)
    requires name != [] && forall k :: 0 <= k < |name| ==> !IsWhite(name[k])
    ensures IndexedSegment(name + "[" + NatToString(i) + "]") == Some((name, NatToString(i)))
  {
    var d := NatToString(i);
    var id := name + "[" + d + "]";
    var p := |name|;
    var e := p + 1 + |d|;
    assert id[0..p] == name && id[p + 1..e] == d && id[p] == '[' && id[e] == ']';
    assert forall k :: p < k < e ==> id[k] == d[k - p - 1];
    assert forall k :: 0 <= k < |id| ==> !IsWhite(id[k]) by {
      forall k | 0 <= k < |id| ensures !IsWhite(id[k]) {
        if k < p { assert id[k] == name[k]; }
        else if k == p || k == e { }
        else { assert id[k] == d[k - p - 1]; }
      }
    }
    SegmentAt(id, p, e);
  }

  /** A non-white `name[digits]` splits at its `[`. */
  lemma SegmentAt(id: string, p: nat, e: nat)
    requires 0 < p && p + 1 < e && e == |id| - 1 && id[p] == '[' && id[e] == ']'
    requires forall k :: p < k < e ==> IsDigit(id[k])
    requires forall k :: 0 <= k < |id| ==> !IsWhite(id[k])
    ensures IndexedSegment(id) == Some((id[0..p], id[p + 1..e]))
  {
    assert DigitsEnd(id, p + 1) == e by { DigitsEndAt(id, p + 1, e); }
    assert RunEnd(id, 0) == |id| by { RunEndAll(id, 0); }
    assert LastIndexIn(id, 1, |id|) == Some(p) by {
      forall k | p < k < |id| ensures !IndexAt(id, k) {
        if k < e { assert id[k] != '['; }
      }
      LastIndexFound(id, 1, |id|, p);
    }
    assert BracketFrom(id, 0) == Some(p);
  }

  /** A run of non-white characters to the end of the text ends at the end. */
  lemma {:induction false} RunEndAll(s: string, i: nat)
    requires i <= |s| && forall k :: i <= k < |s| ==> !IsWhite(s[k])
    ensures RunEnd(s, i) == |s|
    decreases |s| - i
  {
    if i < |s| { RunEndAll(s, i + 1); }
  }


  lemma {:induction false} DigitsEndAt(s: string, i: nat, e: nat)
    requires i <= e < |s| && (forall k :: i <= k < e ==> IsDigit(s[k])) && !IsDigit(s[e])
    ensures DigitsEnd(s, i) == e
    decreases e - i
  {
    if i < e { DigitsEndAt(s, i + 1, e); }
  }

  lemma {:induction false} LastIndexFound(s: string, lo: nat, hi: nat, p: nat)
    requires lo <= p < hi <= |s| && IndexAt(s, p) && forall k :: p < k < hi ==> !IndexAt(s, k)
    ensures LastIndexIn(s, lo, hi) == Some(p)
    decreases hi - lo
  {
    if hi - 1 != p { LastIndexFound(s, lo, hi - 1, p); }
  }

  /** A segment without `[` is a single property access. */
  lemma PlainSegment(path: Option<Json.Json>, id: string)
    requires '[' !in id
    ensures SegmentStep(path, id) == GetStep(path, id)
  {
    assert forall p :: 0 <= p < |id| ==> id[p] != '[';
  }

  // ---------------------------------------------------------------- the pass

  /** `response.data.toString()`: `None` for `null`, which has no `toString` and throws. */
  function DataText(data: Json.Json): (r: Option<string>)
    ensures data.JNull? <==> r.None?
  {
    if data.JNull? then None else Some(Json.JsonToString(data))
  }

  /** `t.replace(/^"(.*)"/, '$1')`: a leading quote and the last quote on its line are dropped. */
  function StripQuotes(t: string): string {
    if t != [] && t[0] == '"' then
      match LastIndexOfChar(Line(t[1..]), '"')
      case Some(k) => t[1..k + 1] + t[k + 2..]
      case None => t
    else t
  }

  /** A quoted text on one line loses exactly its outer quotes. */
  lemma StripQuotesQuoted(x: string)
    requires '"' !in x && forall k :: 0 <= k < |x| ==> !IsLineTerminator(x[k])
    ensures StripQuotes("\"" + x + "\"") == x
  {
    var t := "\"" + x + "\"";
    assert t[1..] == x + "\"";
    LineWhole(x + "\"");
    var line := Line(t[1..]);
    assert line == x + "\"";
    assert LastIndexOfChar(line, '"') == Some(|x|);
    assert t[1..|x| + 1] == x;
  }

  lemma LineWhole(s: string)
    requires forall k :: 0 <= k < |s| ==> !IsLineTerminator(s[k])
    ensures Line(s) == s
  {
  }

  /** The text an accessor token is replaced by: the value reached, or the not-available text. */
  function Shown(w: Step, notAvailable: string): string
    requires w.Reached?
  {
    match w.v
    case None => notAvailable
    case Some(j) => if j.JNull? then notAvailable else Json.JsonToString(j)
  }

  /** The segments of an accessor token: `tag.replace('(api.', '').replace(')', '').split('.')`. */
  function Segments(tag: string): (ids: seq<string>)
    ensures |ids| >= 1
  {
    Split(ReplaceFirst(ReplaceFirst(tag, "(api.", ""), ")", ""), ".")
  }

  /** Replaces each accessor token in turn; `None` when a walk throws. */
  function ReplaceTags(data: Json.Json, notAvailable: string, tags: seq<string>, buf: string): Option<string>
    decreases |tags|
  {
    if tags == [] then Some(buf)
    else
      var w := Walk(Some(data), Segments(tags[0]));
      if w.Threw? then None
      else ReplaceTags(data, notAvailable, tags[1..], ReplaceFirst(buf, tags[0], Shown(w, notAvailable)))
  }

  /** The first token of `tags` replaced, or the walk for it throwing. */
  lemma TagStep(data: Json.Json, notAvailable: string, tags: seq<string>, buf: string, w: Step)
    requires tags != [] && w == Walk(Some(data), Segments(tags[0]))
    ensures w.Threw? ==> ReplaceTags(data, notAvailable, tags, buf) == None
    ensures w.Reached? ==>
      ReplaceTags(data, notAvailable, tags, buf) == ReplaceTags(data, notAvailable, tags[1..], ReplaceFirst(buf, tags[0], Shown(w, notAvailable)))
  {
  }

  /** What the body turns into when the message has no accessor token. */
  function WholeBody(data: Json.Json, buf: string): Option<string> {
    if data.JArr? || data.JObj? then Some(ReplaceFirst(buf, "(api._response)", Json.Stringify(data)))
    else match DataText(data)
      case None => None
      case Some(t) => Some(ReplaceFirst(buf, "(api._response)", StripQuotes(t)))
  }

  /** The response of `axios.get(url)`: `None` when the request is rejected. */
  type Fetch = string -> Option<(int, Json.Json)>

  /** The message once the api pass is done; `None` when it throws. */
  function ApiPass(fetch: Fetch, notAvailable: string, buf: string): (r: Option<string>)
    ensures IsBlank(buf) ==> r == Some(buf)
  {
    if IsBlank(buf) then Some(buf)
    else match FindCall(buf, 0)
      case None => Some(buf)
      case Some((i, c)) => Call(fetch, notAvailable, buf, i, c)
  }

  /** The call whose token spans `buf[i..c + 1]`: the token is removed and its URL fetched. */
  function Call(fetch: Fetch, notAvailable: string, buf: string, i: nat, c: nat): (r: Option<string>)
    requires i + 10 <= c < |buf|
  {
    var rest := Trim(ReplaceFirst(buf, buf[i..c + 1], ""));
    var url := ReplaceAll(buf[i + 5..c], ["&amp;"], "&");
    match fetch(url)
    case None => None
    case Some((status, data)) => Answer(status, data, notAvailable, rest)
  }

  /** What the message becomes once the response is in: unchanged unless the status is 200. */
  function Answer(status: int, data: Json.Json, notAvailable: string, rest: string): (r: Option<string>)
    ensures status != 200 ==> r == Some(rest)
  {
    if status != 200 then Some(rest)
    else
      var tags := Accessors(rest, 0);
      if tags == [] then WholeBody(data, rest) else ReplaceTags(data, notAvailable, tags, rest)
  }

  /** A message without `(` has no api call, and the pass leaves it alone. */
  lemma ApiPassWithoutParen(fetch: Fetch, notAvailable: string, buf: string)
    requires '(' !in buf
    ensures ApiPass(fetch, notAvailable, buf) == Some(buf)
  {
    NoCallWithoutParen(buf, 0);
  }

  lemma {:induction false} NoCallWithoutParen(s: string, i: nat)
    requires i <= |s| && '(' !in s
    ensures FindCall(s, i).None?
    decreases |s| - i
  {
    assert !OccursAtCI(s, "(api|http", i) by {
      if i + 9 <= |s| {
        assert s[i] in s;
        assert Lower(s[i + 0]) != "(api|http"[0];
      }
    }
    if i < |s| { NoCallWithoutParen(s, i + 1); }
  }

  /** A message that is just an api call yields its URL, without the token. */
  lemma CallUrl(url: string)
    requires |url| >= 5 && url[..4] == "http"
    requires forall k :: 0 <= k < |url| ==> !IsWhite(url[k]) && url[k] != ')'
    ensures var s := "(api|" + url + ")"; FindCall(s, 0) == Some((0, |s| - 1)) && s[5..|s| - 1] == url
  {
    var s := "(api|" + url + ")";
    assert forall k :: 0 <= k < |url| ==> s[5 + k] == url[k];
    assert OccursAtCI(s, "(api|http", 0) by {
      forall k | 0 <= k < 9 ensures Lower(s[k]) == "(api|http"[k] {
        if k >= 5 { assert s[k] == url[k - 5]; }
      }
    }
    var e := RunEnd(s, 9);
    assert forall k :: 9 <= k < |s| ==> !IsWhite(s[k]) by {
      forall k | 9 <= k < |s| ensures !IsWhite(s[k]) {
        if k < |s| - 1 { assert s[k] == url[k - 5]; }
      }
    }
    assert e == |s|;
    assert LastCharIn(s, ')', 10, e) == Some(|s| - 1);
  }
}
