# sogeBot message templating and chat systems, modelled in Dafny

sogeBot is a Twitch chat bot. This project models the part of it that turns a
response template into the text the bot sends, plus five small systems that use it
or feed the same statistics:

- **`Message.parse`** (`src/bot/message.js`). The template is rewritten in place in a
  fixed order:
  1. `global` replaces the stream statistics, the version, the latest events and the
     current songs;
  2. the five pass runners (each, variables, eval, online, command) go over their
     filter tables;
  3. the call's attributes are replaced literally (`$sender`, `$param`, …);
  4. the api pass fetches the URL of one `(api|http…)` token and fills in the
     `(api.path)` tokens from the response.

  Every filter key is a *resolver*. A resolver sees the context left by the one
  before it: the attributes, which `$touser` rewrites, the number of random draws
  made, and the side effects caused. A resolver can throw, and then `parse` rejects.
- **Users** (`src/bot/users.ts`): the 30-second watch-time ticker, the clamped
  per-user lookups, the id-to-name map, and the adjustment `viewers::save` makes.
- **HowLongToBeat** (`src/bot/systems/howlongtobeat.ts`): the 15-second play-time
  ticker, and the `!hltb` lookup that creates a missing row from the search service
  and retries once.
- **Highlights** (`src/bot/systems/highlights.ts`):
  - the status the highlight link answers;
  - the order of the checks in `!highlight`;
  - the zero-padded saved message;
  - `!highlight list`, which lists the marks of the latest video.
- **Randomizer** (`src/bot/registries/randomizer.ts`):
  - `!<command>` toggles a randomizer and `!<command> go` spins it;
  - the dashboard can show one randomizer by id or hide them all;
  - the viewer permission cache is filled at most once per user and permission.
- **Text overlay** (`src/bot/registries/text.ts`): `text::getOne` fills the custom
  variables `$_name` of a stored text.

**How the model is built.**
- Pure computations are functions with contracts. Each has a partner: an inverse, an
  invariant, or an independent description, connected to it by lemmas.
- Code that mutates state is a class whose methods change fields, each proved to end
  in the state a specification function describes:
  - `Message` keeps its buffer;
  - `UserTable`, `GameTable`, `HighlightTable` and `Randomizers` keep the database
    table as a sequence of rows.
- The database, the clock, the random source, the HTTP client, the custom-variable
  store, `safe-eval`, `mathjs` and the translations are inputs: fields of `Env` or
  method parameters.

Files:

| file | models |
|---|---|
| `wrappers.dfy` | `Option` |
| `jsstring.dfy` | the ECMAScript string built-ins the code relies on |
| `values.dfy` | the JavaScript values a resolver returns |
| `json.dfy` | parsed response bodies |
| `matcher.dfy` | how a filter key becomes a regular expression |
| `lists.dfy` | `(list.…)` |
| `resolvers.dfy` | every filter key of `parse` |
| `api.dfy` | the api pass |
| `engine.dfy` | the runners and the pipeline as functions |
| `message.dfy` | the `Message` class |
| `users.dfy` | Users |
| `howlongtobeat.dfy` | HowLongToBeat |
| `highlights.dfy` | Highlights |
| `randomizer.dfy` | Randomizer |
| `text.dfy` | the text overlay |

## Model

| member | source | states |
|---|---|---|
| Messages.Message.constructor | src/bot/message.js:35-37 | The buffer starts as the raw text with its HTML entities decoded. |
| Messages.Message.Global | src/bot/message.js:39-119 | The buffer ends as `GlobalText`: the statistics, version, event and song replacements in their fixed order. The decoded text is returned, while the buffer keeps the undecoded one. |
| Engine.GlobalSteps | src/bot/message.js:40-98 | Every replacement `global` makes is a global replace of a literal starting with `$`. |
| Engine.GlobalPlain | src/bot/message.js:39-119 | `global` leaves a text without `$` unchanged. |
| Engine.TipAmountFirst | src/bot/message.js:60-98 | `$latestTipAmount` shows the tip amount, not the tipper's name followed by `Amount`, because it is replaced before `$latestTip`. |
| Engine.TipPrefixSkipped | src/bot/message.js:40-98 | The eleven replacements made before `$latestTipAmount` leave that token intact. |
| Engine.TipSuffixSkipped | src/bot/message.js:60-117 | The replacements after `$latestTipAmount`, including the YouTube song, leave a `$`-free amount unchanged. |
| Messages.Message.Parse | src/bot/message.js:121-687 | The buffer and the resolvers' context end where `ParseResult` says: global, the fifteen passes and steps in the source's order, then the api pass. It reports rejection exactly when some stage throws. |
| Messages.Message.RunStages | src/bot/message.js:659-685 | Running the stages from 0 in order ends where `RunFrom` from stage 0 ends. |
| Messages.Message.Stage | src/bot/message.js:659-685 | One stage: either the pipeline goes on to stage k+1 with the same final result, or it ends right here with that result. |
| Messages.Message.GlobalStep | src/bot/message.js:659 | The global stage hands its buffer on unchanged in meaning: what it returns is not used. |
| Messages.Message.LocalStep | src/bot/message.js:665-677 | The local-replace stage hands the replaced buffer on to stage k+1. |
| Messages.Message.ApiStep | src/bot/message.js:684 | The api stage ends the pipeline with its result. |
| Messages.Message.Pass | src/bot/message.js:661-683 | A pass stage either hands its buffer and context on to stage k+1, or ends the pipeline with its rejection. |
| Messages.StageOk | src/bot/message.js:659-685 | A stage that goes through hands its buffer and context to the stages after it. |
| Messages.StageRejected | src/bot/message.js:659-685 | A stage that rejects ends the whole parse with its context. |
| Engine.StageAt | src/bot/message.js:659-684 | There are sixteen stages. Stage 0 is `global`, stage 8 is the local replaces, stage 15 is the api pass, and each of these happens exactly once. |
| Engine.ParsePlain | src/bot/message.js:121-687 | A message with no `$` and no `(` holds no token: `parse` returns it unchanged, with no draws and no side effects. |
| Engine.StagePlain | src/bot/message.js:659-684 | Every stage keeps a text with neither `$` nor `(` as it is. |
| Engine.FromPlain | src/bot/message.js:659-685 | All the stages from k on keep such a text as it is. |
| Messages.Message.ParseMessagePass | src/bot/message.js:812-838 | A pass runner leaves the buffer and context `RunPass` describes. It returns `false` exactly when a resolver throws. A blank buffer is left alone. |
| Engine.RunPass | src/bot/message.js:815 | A runner does nothing to a buffer that trims to nothing. |
| Messages.Message.ParseKeys | src/bot/message.js:816-836 | The keys of a table, in order, end where `RunKeys` says. |
| Messages.Message.ParseKey | src/bot/message.js:817-835 | One key: its matches are listed once, on the buffer as it is then. Either the rest of the table continues from the new buffer and context, or this key rejects. |
| Messages.Message.ParseMatches | src/bot/message.js:828-834 | Each match of one key is resolved and spliced in turn, where `RunMatches` says. |
| Messages.Message.ParseOne | src/bot/message.js:829-833 | One match is resolved and spliced in: the rest of the matches continue from there, or this match rejects. |
| Messages.Message.PutValue | src/bot/message.js:738-835 | The buffer becomes what `Splice` gives. The method reports failure exactly when the eval runner gets `null`. |
| Engine.Splice | src/bot/message.js:738-835 | How each runner splices a value, and the result is always trimmed. The online runner clears the buffer on a falsy value and deletes the match on a truthy one. With remove-when-empty set, the each and variables runners clear the buffer on `null`, `undefined` or `''`. Otherwise the first occurrence is replaced by `String(v)`. The command runner always replaces the first occurrence by `String(v)` and never clears. For the eval runner, `null` throws, `undefined` or `''` clears the buffer, and any other value replaces the first occurrence. |
| Engine.SpliceCleared | src/bot/message.js:738-835 | A cleared buffer stays cleared, whatever is spliced into it. |
| Engine.MatchStep | src/bot/message.js:828-834 | A match that resolves and splices hands its buffer and context on to the next match. |
| Engine.KeysStep | src/bot/message.js:816-836 | A key whose matches all go through hands its buffer on to the next key. |
| Engine.KeysRejected | src/bot/message.js:816-836 | A key with a match that throws ends the runner with that rejection. |
| Engine.ClearedStep | src/bot/message.js:828-834 | On an empty buffer, one match rejects or leaves the buffer empty. |
| Engine.ClearedMatches | src/bot/message.js:828-834 | Once the buffer is empty, the rest of a key's matches keep it empty. |
| Engine.ClearedKeys | src/bot/message.js:816-836 | Once the buffer is empty, the rest of a pass keeps it empty. |
| Engine.EmptyResultClears | src/bot/message.js:829-832 | The remove-when-empty rule: an empty-looking value clears the whole message, and the later matches of the key cannot bring anything back. |
| Engine.SilentVarClears | src/bot/message.js:256-262 | `$!!_name` always resolves to `''` in the removing variables runner, so its first match clears the message for good. |
| Engine.MissingParamClears | src/bot/message.js:277-280 | `$param` without an argument resolves to `''` in the removing each runner, so it clears the message. |
| Engine.OnlineOnCleared | src/bot/message.js:746-767 | The online runner on an empty buffer keeps it empty and changes nothing else. |
| Engine.OnlineOnlyWhenOffline | src/bot/message.js:388-394 | `(onlineonly)` while the stream is offline empties the message. |
| Engine.OnlineKeyShut | src/bot/message.js:389-391 | While offline, the `(onlineonly)` key empties a buffer holding it. |
| Engine.OfflineOnlyWhenOnline | src/bot/message.js:388-394 | `(offlineonly)` while the stream is online empties the message, whatever `(onlineonly)` tokens it also holds. |
| Engine.OnlineKeyDeletes | src/bot/message.js:388-391 | While online, the `(onlineonly)` key hands the second key a buffer that still holds the `(offlineonly)`, with the context unchanged. |
| Engine.OnlineKeyRuns | src/bot/message.js:748-766 | While online, every match of the `(onlineonly)` key goes through without touching the context, and the `(offlineonly)` survives. |
| Engine.OnlineHandlerTrue | src/bot/message.js:389-391 | While online, the `(onlineonly)` filter answers `true` and keeps the context. |
| Engine.OnlineMatchesKeep | src/bot/message.js:757-762 | A filter that answers `true` to every `(onlineonly)` match deletes each one, and an `(offlineonly)` in the buffer survives. |
| Engine.OnlineStep | src/bot/message.js:759-762 | A match the filter answers `true` to is deleted from the buffer, which is then trimmed. |
| Engine.OfflineTokenKept | src/bot/message.js:762 | Deleting an `(onlineonly)` and trimming keeps an `(offlineonly)`. |
| JsString.DeleteKeepsOccurrence | src/bot/message.js:762 | Deleting the first occurrence of a token and trimming keeps any token that cannot overlap it and has no white space at its ends. |
| JsString.KeptOccurrence | src/bot/message.js:762 | After the deletion, the kept token sits at its old index or at that index less the deleted length. |
| JsString.NoOverlap | src/bot/message.js:762 | Two such tokens never overlap. |
| JsString.TrimKeepsOccurrence | src/bot/message.js:762 | Trimming keeps an occurrence whose ends are not white space. |
| Engine.OfflineKeyShut | src/bot/message.js:392-394 | While online, the `(offlineonly)` key empties a buffer holding it. |
| Engine.GateStep | src/bot/message.js:757-764 | A shut gate empties the buffer at its first match and keeps it empty. |
| Engine.GateTail | src/bot/message.js:748-766 | Once the first key of the online table has emptied the buffer, the second key changes nothing. |
| Engine.OnlineKeyAbsent | src/bot/message.js:748-766 | Without `(onlineonly)`, the first key of the online table changes nothing. |
| Engine.KeysAbsent | src/bot/message.js:816-836 | A table none of whose keys' first characters occurs in the buffer changes nothing. |
| Messages.Message.LocalReplaces | src/bot/message.js:665-677 | The buffer ends as `LocalSubst`: each attribute entry replaces every `$key` by its text, and the sender is shown with `@` when `showWithAt` is set. |
| Engine.LocalSteps | src/bot/message.js:667-676 | The entries become replacements of `"$" + key` by the entry's text, one per entry, in order. |
| Engine.LocalSubst | src/bot/message.js:666 | Without `attr`, nothing is replaced. |
| Engine.LocalPlain | src/bot/message.js:665-677 | The local replaces leave a text without `$` alone. |
| Engine.ReplaceSeqAbsent | src/bot/message.js:50-53 | Replacements whose patterns all start with a character the text lacks change nothing. |
| Engine.SkipSteps | src/bot/message.js:50-53 | Replacements that leave the text as it is can be skipped. |
| Engine.WholeReplaced | src/bot/message.js:50-53 | A text that is exactly one occurrence of the pattern becomes the `$`-free replacement. |
| Engine.NotTipAmount | src/bot/message.js:40-98 | A `$` pattern that differs from `$latestTipAmount` at its second or eighth character does not occur in it. |
| Engine.GlobalText | src/bot/message.js:39-118 | definition: the buffer after `global`: the `$`-variable replacements in source order, then `$ytSong` decided on what they left. |
| Engine.RunMatches | src/bot/message.js:828-834 | definition: one key's matches resolved in turn, each spliced into the buffer and handing its context on; a throw or a failed splice rejects. |
| Engine.RunKeys | src/bot/message.js:812-836 | definition: the keys of a filter table in order, each key's matches listed once on the buffer as the previous key left it. |
| Engine.RunFrom | src/bot/message.js:656-685 | definition: the pipeline stages from index k on, each on the buffer and context the previous one left, stopping at the first rejection. |
| Engine.ParseResult | src/bot/message.js:656-685 | definition: `parse(attr)` as `RunFrom` from stage 0, with no draws and no side effects yet. |
| Engine.SpliceTruthy | src/bot/message.js:759-762 | A true answer of the online runner deletes the first occurrence of the match and trims. |
| Resolvers.Key | src/bot/message.js:124-653 | Every filter key is nonempty and starts with `$` or `(`. |
| Resolvers.Resolve | src/bot/message.js:124-653 | Dispatches each filter key to its resolver. A resolver never takes back a random draw. |
| Resolvers.ResolveKeepsAttr | src/bot/message.js:265-276 | Only `$touser` changes the attributes. |
| Resolvers.ResolveAppendsEffects | src/bot/message.js:124-653 | A resolver only appends to the side effects already caused. |
| Resolvers.ToUserResolver | src/bot/message.js:265-276 | `$touser` with an argument drops its first `@`, stores the result back into `attr.param` with the `@` prefix when `showWithAt`, and shows it. Without an argument, or with an empty one, it shows the sender's name. Without `attr` it throws. |
| Resolvers.StripAt | src/bot/message.js:267 | `replace('@', '')` drops a leading `@` and leaves a text without `@` alone. |
| Resolvers.ToUserRepeats | src/bot/message.js:265-276 | With `showWithAt`, a second `$touser` shows the same text as the first, even though the first rewrote `attr.param`. |
| Resolvers.ParamResolver | src/bot/message.js:277-284 | `$param` and `$!param` show the argument when present, else `''` or `'n/a'`. They throw without `attr` and never change the context. |
| Resolvers.IfParts | src/bot/message.js:566-570 | The payload split on `\|` has at least one piece. |
| Resolvers.IfResolver | src/bot/message.js:563-578 | `(if c\|t\|e)` never changes the context. Without `attr` it gives `''`, and without `t` it gives `undefined`. A condition starting with `>`, `<` or `=` is forced false, giving `e`, or `''` when there is no `e`. Otherwise a truthy evaluation gives `t`, a falsy one gives `e` or `''`, and one that throws gives `''`. |
| Resolvers.IfPicksPiece | src/bot/message.js:563-578 | What `(if …)` gives is always `undefined`, `''`, or one of the pieces after the condition. |
| Resolvers.NumberTexts | src/bot/message.js:200-203 | The bounds text has at least one piece. |
| Resolvers.IntMask | src/bot/message.js:207 | Bound i is marked exactly when its text parses as a finite integer. |
| Resolvers.FillFrom | src/bot/message.js:205-214 | A successful filling keeps the number of bounds. |
| Resolvers.FillMeaning | src/bot/message.js:205-214 | Arguments are consumed left to right. The filling succeeds exactly when there are as many arguments as non-integer bounds. Then bound i keeps its text, or takes the argument counted by the non-integer bounds before it. |
| Resolvers.FillFromMeaning | src/bot/message.js:205-214 | The same, from any index on, given the bounds before it are filled as described. |
| Resolvers.FillFromNoParam | src/bot/message.js:208-209 | Without `attr.param`, the filling succeeds only when every bound is already an integer, and then changes nothing. |
| Resolvers.FillBounds | src/bot/message.js:205-214 | The `lastParamUsed` loop, run in place, gives what `FillFrom` describes. |
| Resolvers.FillFromStep | src/bot/message.js:206-213 | One bound of the loop: kept, filled from the next argument, or the end for want of one. |
| Resolvers.KeepStep | src/bot/message.js:207-208 | An integer bound is kept and uses no argument. |
| Resolvers.FillStep | src/bot/message.js:209-211 | A non-integer bound takes the next unused argument, and the count of used arguments grows by one. |
| Resolvers.FilledAll | src/bot/message.js:205-214 | Once every bound is handled, the filling is the one `FillMeaning` describes. |
| Resolvers.GapsExceeded | src/bot/message.js:209-212 | Running out of arguments at a non-integer bound means there are more such bounds than arguments. |
| Resolvers.Gaps | src/bot/message.js:207-212 | At most k non-integer bounds come before index k. |
| Resolvers.GapsGrow | src/bot/message.js:207-212 | Counting non-integer bounds further along never gives fewer. |
| Resolvers.ToFinite | src/bot/message.js:215 | A non-numeric bound counts as 0 and a decimal integer counts as itself. |
| Resolvers.RandomBetween | src/bot/message.js:215 | `_.random(a, b)` uses one draw and returns an integer between the bounds, taken in either order. |
| Resolvers.RandomNumberResolver | src/bot/message.js:199-219 | `(random.number-A-to-B)` always returns, and never changes the attributes or the side effects. When the filling of the non-integer bounds runs out of arguments, or there is no `attr.param` to split, it shows 0 and draws nothing. |
| Resolvers.RandomNumberArgumentsShort | src/bot/message.js:206-210 | More non-integer bounds than space-separated arguments: 0, and nothing is drawn. |
| Resolvers.RandomNumberNoParam | src/bot/message.js:206-217 | A non-integer bound without `attr.param`: 0, and nothing is drawn. |
| Resolvers.RandomNumberInRange | src/bot/message.js:199-219 | When both filled bounds are integers, the number drawn lies between them, whichever order they come in. |
| Resolvers.Candidates | src/bot/message.js:125-197 | A name is a candidate exactly when some user row with that name is eligible: online if required, follower or subscriber if required, and neither the bot nor the broadcaster. |
| Resolvers.RandomUserResolver | src/bot/message.js:125-197 | `(random[.online].viewer\|follower\|subscriber)` gives `'unknown'` when nobody is eligible, without a draw. Otherwise it uses one draw and gives an eligible user's name. |
| Resolvers.CustomResolver | src/bot/message.js:225-246 | `$_name` without an argument shows the variable's value. With one, it records the set, and shows `''` for response type 1 and the current value otherwise. The messages sent after the set are exact: for type 0, the setting notice only when the set succeeded and was not an eval; for type 1, the custom response with its first `$value` replaced by the set value; for any other type, none. It throws without `attr`. |
| Resolvers.QuietVarResolver | src/bot/message.js:247-255 | `$!_name` sets `$_name` without a notice and shows its value; without an argument it shows the value. |
| Resolvers.SilentVarResolver | src/bot/message.js:256-262 | `$!!_name` sets `$_name` only when there is an argument, and always shows `''`. |
| Resolvers.DropLast | src/bot/message.js:482 | `.slice(0, -1)` drops exactly one character of a nonempty text. |
| Resolvers.NextDraw | src/bot/message.js:215 | A draw advances the draw counter by one and nothing else. |
| Resolvers.Emit | src/bot/message.js:237 | A side effect is appended and nothing else changes. |
| Resolvers.CommandText | src/bot/message.js:358-376 | definition: the command a `(!cmd)` or `(!!cmd)` token runs: the first `!` dropped for the quiet form, parentheses removed, `$sender` and `$param` filled in. |
| Resolvers.UrlArg | src/bot/message.js:291-297 | definition: the text after the first `(url\|` up to the last `)` on that line, or none when there is no match. |
| Resolvers.StreamDefault | src/bot/message.js:581-656 | definition: what a stream token shows without a token or on an error: `0` for viewers, `n/a` otherwise. |
| Resolvers.StreamChannel | src/bot/message.js:582 | definition: the channel of a stream token: the first `(stream\|` and the first field suffix removed. |
| Lists.List | src/bot/message.js:397-459 | An unknown list system gives `''`. The cooldown, price and ranks lists are never empty. |
| Lists.ResponseIds | src/bot/message.js:415-418 | A response id is listed exactly when some command has a response for that permission with that id. |
| Lists.OwnIds | src/bot/message.js:415-418 | The ids of one command's responses for a permission, exactly. |
| Lists.FilterById | src/bot/message.js:419 | The kept commands are exactly those whose id is listed. |
| Lists.FilterByIdCounts | src/bot/message.js:419 | `filter` keeps each listed command exactly as often as the table holds it, and no other command. |
| Lists.FilterByIdAppend | src/bot/message.js:419 | `filter` keeps table order: filtering a concatenation filters each part in turn. |
| Lists.CommandsFor | src/bot/message.js:413-424 | Without a permission, every command is listed. For an unknown group, none. Otherwise, exactly those with a response for the group. |
| Lists.CommandsForCounts | src/bot/message.js:413-424 | For an existing group, each command with a response for the group is listed exactly as often as the table holds it, and no other command is listed. |
| Lists.CommandNames | src/bot/message.js:424-436 | One name per command, in order, with its first `!` dropped for the `command` form. |
| Lists.AliasNames | src/bot/message.js:410-412 | One name per alias, in order, with its first `!` dropped for the `alias` form. |
| Lists.StripBang | src/bot/message.js:410 | `replace('!', '')` removes exactly the first `!`. |
| Lists.SortedList | src/bot/message.js:410-436 | An empty table gives a single space. Otherwise the names are sorted and joined with `, `. |
| Lists.Seconds | src/bot/message.js:440 | A whole number of seconds is written as its digits. |
| Lists.SecondsRoundTrip | src/bot/message.js:440 | `ms / 1000` written in decimal reads back as the milliseconds: whole part, `.`, then the fraction digits. |
| Lists.FractionDigits | src/bot/message.js:440 | One to three digits, with no trailing zero. |
| Lists.FractionRoundTrip | src/bot/message.js:440 | The fraction digits read back as the thousandths they were written from. |
| Lists.OrderByHours | src/bot/message.js:451 | `_.orderBy(ranks, 'hours', 'asc')` gives a permutation of the ranks sorted by hours. |
| Lists.InsertRankStable | src/bot/message.js:451 | Inserting a rank puts it before the ranks with the same hours and keeps their order. |
| Lists.OrderByHoursStable | src/bot/message.js:451 | The sort is stable: ranks with equal hours come out in their input order, which with the sortedness and the permutation fixes the output. |
| Lists.InsertRank | src/bot/message.js:451 | Inserting a rank into a sorted list keeps it sorted, and adds exactly that rank. |
| Lists.RankCons | src/bot/message.js:451 | A rank with no more hours than the head of a sorted list can go first. |
| Lists.RankLater | src/bot/message.js:451 | A rank with more hours than the head goes into the tail, and the result stays a sorted permutation. |
| Lists.MapText | src/bot/message.js:438-453 | One text per row, in order. |
| Lists.NonEmpty | src/bot/message.js:442 | The result is never empty, and a nonempty list is kept as it is. |
| Lists.ListArgs | src/bot/message.js:398 | definition: the system and optional permission: the `.`-split of the token without its first `(list.` and first `)`. |
| Lists.CooldownText | src/bot/message.js:438-441 | definition: `name: <seconds>s`, the milliseconds divided by 1000. |
| Lists.PriceText | src/bot/message.js:446 | definition: `command (<price><points name>)`. |
| Lists.RankText | src/bot/message.js:452 | definition: `rank (<hours>h)`. |
| JsString.SortStrings | src/bot/message.js:410 | `sort()` gives a permutation sorted in UTF-16 code-unit order. |
| JsString.InsertString | src/bot/message.js:410 | Inserting into a sorted list keeps it sorted, and adds exactly that string. |
| JsString.InsertFirst | src/bot/message.js:410 | A string no greater than the head goes first. |
| JsString.InsertLater | src/bot/message.js:410 | A string greater than the head goes into the tail. |
| JsString.SortedCons | src/bot/message.js:410 | A head no greater than every element of a sorted tail keeps the sequence sorted. |
| JsString.StrLeTotal | src/bot/message.js:410 | The default sort order is total. |
| JsString.StrLeAntisymmetric | src/bot/message.js:410 | The default sort order is antisymmetric. |
| JsString.StrLeTransitive | src/bot/message.js:410 | The default sort order is transitive. |
| JsString.CharOrder | src/bot/message.js:410 | Two characters are equal, or exactly one sorts before the other. |
| JsString.Trim | src/bot/message.js:815 | `trim()` gives a slice with white space only outside it, and no white space at either of its ends. |
| JsString.TrimStart | src/bot/message.js:815 | The suffix left after dropping leading white space. |
| JsString.TrimEnd | src/bot/message.js:815 | The prefix left after dropping trailing white space. |
| JsString.TrimBothEnds | src/bot/message.js:815 | Trimming the start and then the end leaves a slice with white space only around it, and with no white space at either of its ends. |
| JsString.TrimBlank | src/bot/message.js:815 | A text trims to nothing exactly when it is all white space. |
| JsString.TrimEmpty | src/bot/message.js:815 | The empty text trims to itself. |
| JsString.TrimNoWhiteEnds | src/bot/message.js:832 | Trimming a text with no white space at its ends changes nothing. |
| JsString.IndexOf | src/bot/message.js:832 | The first occurrence of the pattern, or none at all. |
| JsString.IndexOfFrom | src/bot/message.js:832 | The first occurrence from index k on, or none from k on. |
| JsString.SubstitutePlain | src/bot/message.js:832 | A replacement without `$` is inserted as written. |
| JsString.ReplaceFirstAbsent | src/bot/message.js:832 | Replacing a pattern that does not occur changes nothing. |
| JsString.ReplaceFirstInEmpty | src/bot/message.js:832 | Replacing in the empty text gives the empty text. |
| JsString.FirstAltAt | src/bot/message.js:361 | An alternation tries its literals in order at a position: the one found occurs there, and none found means none occurs there. |
| JsString.ReplaceAllNoMatch | src/bot/message.js:51-52 | A global replace without an occurrence changes nothing. |
| JsString.ReplaceAllFromNoMatch | src/bot/message.js:51-52 | The same, from index i on. |
| JsString.FieldOnce | src/bot/message.js:51-52 | A `$` field met once in `$`-free text is replaced by its `$`-free value, and nothing else changes. |
| JsString.FieldOnlyAt | src/bot/message.js:51-52 | In such a text the field occurs only right after the prefix. |
| JsString.PrefixSkipped | src/bot/message.js:51-52 | Characters where the pattern does not start are copied. |
| JsString.SkipOne | src/bot/message.js:51-52 | One character where the pattern does not start is copied. |
| JsString.MatchOne | src/bot/message.js:51-52 | A match is replaced and scanning resumes after it. |
| JsString.AbsentHead | src/bot/message.js:51-52 | A pattern whose first character is missing from the text does not occur in it. |
| JsString.Split | src/bot/message.js:398 | `split` always gives at least one piece. |
| JsString.SplitStep | src/bot/message.js:398 | The piece before the first separator, then the split of the rest. |
| JsString.JoinSplit | src/bot/message.js:398 | Splitting and joining with the same separator gives back the text. |
| JsString.JoinCons | src/bot/message.js:410 | Joining a part in front of others puts the separator between them. |
| JsString.AroundOccurrence | src/bot/message.js:398 | A text is the part before an occurrence, the separator, and the part after. |
| JsString.SplitPiecesFree | src/bot/message.js:398 | No piece of a split contains the separator. |
| JsString.LastIndexOfChar | src/bot/message.js:293 | The last occurrence of a character, or none. |
| JsString.Line | src/bot/message.js:293 | The text before the first line terminator, which `.` cannot cross. |
| JsString.NatToString | src/bot/message.js:348 | `String(n)` is a nonempty string of digits with no leading zero. |
| JsString.NatToStringRoundTrip | src/bot/message.js:348 | The digits of `String(n)` read back as n. |
| JsString.DigitPrefix | src/bot/message.js:440 | The longest run of digits at the start of a text. |
| JsString.DigitPrefixAll | src/bot/message.js:440 | A text of digits is its own longest digit prefix. |
| JsString.ParseIntRoundTrip | src/bot/message.js:440 | `parseInt` reads back what `String` writes, for every integer. |
| JsString.ParseNeg | src/bot/message.js:440 | `parseInt` of a minus sign followed by digits gives the negated value. |
| JsString.ParsePos | src/bot/message.js:440 | `parseInt` of digits gives their value. |
| JsString.DigitChar | src/bot/message.js:348 | A digit value below ten maps to its character. |
| JsString.DigitValue | src/bot/message.js:440 | A digit character has a value below ten. |
| JsString.FindChar | src/bot/message.js:207 | The first occurrence of a character, or none. |
| JsString.IntStringIsNumeric | src/bot/message.js:207 | The decimal text of an integer is numeric for `Number`. |
| JsString.DigitsNumeric | src/bot/message.js:207 | A run of digits is an unsigned decimal literal. |
| JsString.ReplaceFirst | src/bot/message.js:398 | definition: `replace` with a string pattern: the first occurrence replaced, the replacement inserted with its `$` patterns expanded. |
| JsString.ReplaceAll | src/bot/message.js:695 | definition: `replace` with a global regular expression that is an alternation of literals: every leftmost occurrence replaced, scanning on after each. |
| JsString.ParseInt | src/bot/message.js:207 | definition: `parseInt(s, 10)`: leading white space skipped, an optional sign, then the longest run of digits, or none (NaN) when there is no digit. |
| JsString.IsNumericString | src/bot/message.js:215 | definition: `!isNaN(Number(s))`, as lodash's `toFinite` decides between a number and 0: after trimming, empty, a decimal literal with optional sign, fraction and exponent, or a `0x`/`0o`/`0b` integer. |
| Values.ToStr | src/bot/message.js:832 | `String(v)` of a string is the string, and of a number it is text that `parseInt` reads back as the number. |
| Values.EmptyIsFalsy | src/bot/message.js:803-806 | A value the remove-when-empty test flags is falsy; for strings the two tests agree. |
| Values.EmptyText | src/bot/message.js:829-832 | An empty-looking value prints as `''`, `undefined` or `null`. |
| Matcher.Compile | src/bot/message.js:819-827 | A key without `#` is a literal. The word form `prefix[a-zA-Z0-9_]+` arises only in the variables runner, from a key that ends in its only `#`. |
| Matcher.MatchAll | src/bot/message.js:827 | Every match is a nonempty piece of the text; a literal key's matches are the key itself. |
| Matcher.LiteralMatches | src/bot/message.js:737 | Every match of a literal pattern is the pattern. |
| Matcher.LiteralMatchesOccur | src/bot/message.js:737 | A literal with matches occurs in the text. |
| Matcher.LiteralMatchesFound | src/bot/message.js:737 | A literal occurring at or after the scan start is found. |
| Matcher.LiteralKeyFound | src/bot/message.js:737 | A literal key that occurs in the text has at least one match. |
| Matcher.NoMatchWithoutHead | src/bot/message.js:827 | A key has no match in a text that lacks its first character. |
| Matcher.MatchesShowHead | src/bot/message.js:827 | When a key matches, its first character occurs in the text. |
| Matcher.WordPrefix | src/bot/message.js:800 | The longest run of word characters at the start of a text. |
| Matcher.WordAt | src/bot/message.js:800-801 | A word match at i is the prefix followed by one or more word characters, and occurs at i. |
| Matcher.WordMatches | src/bot/message.js:800-801 | Every match of `prefix[a-zA-Z0-9_]+` is the prefix plus word characters, and occurs in the text. |
| Matcher.Head | src/bot/message.js:820-825 | The text of a key before its first `#`. |
| Matcher.Tail | src/bot/message.js:820-825 | The text of a key after its last `#`. |
| Matcher.FilterAdmissible | src/bot/message.js:820-827 | Only matches that start with the key's head and end with its tail are kept. |
| Messages.Message.ParseMessageApi | src/bot/message.js:689-725 | The buffer ends where `Api.ApiPass` says, with failure when the request or a walk throws. A blank buffer is left alone. |
| Messages.Message.ApiCall | src/bot/message.js:693-724 | The token is removed, the message trimmed and the URL fetched, as `Api.Call` describes. |
| Messages.Message.PutAnswer | src/bot/message.js:697-724 | A status other than 200 leaves the message without the token. Otherwise it is filled from the body. |
| Messages.Message.PutBody | src/bot/message.js:703-707 | `(api._response)` is replaced by the whole body. A `null` body throws. |
| Messages.Message.PutTags | src/bot/message.js:708-722 | Each accessor token is replaced in turn by what its path reaches, as `Api.ReplaceTags` says. |
| Messages.Message.PutTag | src/bot/message.js:710-721 | One accessor token is replaced, or its walk throws. |
| Messages.Message.FollowPath | src/bot/message.js:711-720 | The path is walked segment by segment, as `Api.Walk` says. |
| Messages.Message.Index | src/bot/message.js:713-719 | One segment: `path[name][index]` for `name[index]`, `path[id]` otherwise. |
| Api.ApiPass | src/bot/message.js:689-725 | A blank message is left alone. |
| Api.ApiPassWithoutParen | src/bot/message.js:692 | A message without `(` has no api call and is left alone. |
| Api.NoCallWithoutParen | src/bot/message.js:692 | No api call is found in a text without `(`. |
| Api.CallAt | src/bot/message.js:692 | A match of `\(api\|(http\S+)\)` at i starts with `(api\|http` in any case and ends at a `)`, with no white space between the `(api\|` and that `)`. |
| Api.FindCall | src/bot/message.js:692 | The leftmost match: none starts before it, and none at all when it is absent. |
| Api.NoCallStep | src/bot/message.js:692 | No match starts in a range extended by one position where none starts. |
| Api.CallUrl | src/bot/message.js:692-695 | A message that is just `(api\|url)` has its match over the whole text, and the group is the URL. |
| Api.Answer | src/bot/message.js:697-699 | A status other than 200 leaves the message as it stands after the token was removed. |
| Api.AccessorAt | src/bot/message.js:702 | An accessor token starts with `(api.`, not followed by `_response`, ends at its first `)`, and holds no white space. |
| Api.Accessors | src/bot/message.js:702 | Every accessor token listed has that shape. |
| Api.ResponseNotAccessor | src/bot/message.js:702 | `(api._response)` is never taken for an accessor. |
| Api.StopAt | src/bot/message.js:702 | Where a lazy `\S*?\)` stops: at the first `)` or white space. |
| Api.RunEnd | src/bot/message.js:692 | The end of a run of non-white characters. |
| Api.RunEndAll | src/bot/message.js:692 | A run of non-white characters to the end of the text ends at the end. |
| Api.LastCharIn | src/bot/message.js:692 | The last occurrence of a character in a range. |
| Api.DigitsEnd | src/bot/message.js:714 | The end of a run of digits. |
| Api.DigitsEndAt | src/bot/message.js:714 | A run of digits ends at the first non-digit. |
| Api.LastIndexIn | src/bot/message.js:714 | The last `[digits]` start in a range, the greedy `\S+` backing off. |
| Api.LastIndexFound | src/bot/message.js:714 | That last start is found. |
| Api.BracketFrom | src/bot/message.js:714 | A match of `(\S+)\[(\d+)\]` from q: non-white up to a `[digits]`. |
| Api.FindBracket | src/bot/message.js:714 | The leftmost such match. |
| Api.IndexedSegment | src/bot/message.js:714 | A segment `name[index]` splits into a nonempty name and nonempty digits. |
| Api.IndexedSegmentSplits | src/bot/message.js:714-716 | `name[i]` with a non-white name splits into `name` and the digits of i. |
| Api.SegmentAt | src/bot/message.js:714 | A non-white `name[digits]` splits at its `[`. |
| Api.PlainSegment | src/bot/message.js:717-718 | A segment without `[` is a single property access. |
| Api.GetStep | src/bot/message.js:715-718 | Property access throws exactly on `undefined` or `null`. |
| Api.WalkAppend | src/bot/message.js:713-720 | Walking a path in two parts is walking the first part, then the second from where the first led. |
| Api.TagStep | src/bot/message.js:710-721 | The first accessor token is replaced by the value reached, or the pass throws. |
| Api.Segments | src/bot/message.js:712 | The segments of a token are at least one. |
| Api.DataText | src/bot/message.js:707 | `toString()` fails exactly on `null`. |
| Api.StripQuotesQuoted | src/bot/message.js:707 | A quoted text on one line loses exactly its outer quotes. |
| Api.LineWhole | src/bot/message.js:707 | A text without a line terminator is a single line. |
| Api.Call | src/bot/message.js:692-696 | definition: the `(api\|url)` token removed and the message trimmed, `&amp;` turned into `&` in the URL, and the answer to the fetch given to `Answer`; a rejected fetch throws. |
| Api.Walk | src/bot/message.js:711-720 | definition: the path segments applied left to right to the response, stopping at the first access that throws. |
| Api.Shown | src/bot/message.js:721 | definition: the value reached, as `String` writes it, or the not-available text when it is `undefined` or `null`. |
| Api.ReplaceTags | src/bot/message.js:708-722 | definition: each accessor token in turn replaced by what its walk shows, or a throw when a walk throws. |
| Api.StripQuotes | src/bot/message.js:707 | definition: `replace(/^"(.*)"/, '$1')`: a leading quote and the last quote on the same line dropped. |
| Api.WholeBody | src/bot/message.js:703-707 | definition: `(api._response)` replaced by the stringified body for an object or array, else by its text with the outer quotes stripped; a null body throws. |
| Json.UnescapeEscape | src/bot/message.js:706 | Every string comes back from its `JSON.stringify` escaping. |
| Json.UnescapeChar | src/bot/message.js:706 | One escaped character reads back as itself. |
| Json.EscapeClean | src/bot/message.js:706 | An escaped string holds no raw control character. |
| Json.StringifyString | src/bot/message.js:706 | A stringified string is a quoted literal whose body reads back as the string. |
| Json.HexValue | src/bot/message.js:706 | A hexadecimal digit has a value below sixteen. |
| Json.HexRoundTrip | src/bot/message.js:706 | A hexadecimal digit reads back as its value. |
| Json.GetIndex | src/bot/message.js:715 | Indexing an array with the decimal text of an index in range gives that element. |
| Json.ArrayIndex | src/bot/message.js:715 | A key is an array index only when it is the canonical decimal text of that index. |
| Json.CanonicalDigits | src/bot/message.js:715 | Digits without a leading zero are the canonical text of their value. |
| Json.ZeroDigits | src/bot/message.js:715 | The only canonical text of zero is `0`. |
| Json.LeadingDigitBound | src/bot/message.js:715 | Digits with a nonzero lead have a positive value. |
| Json.Lookup | src/bot/message.js:717 | Member access finds the last member with that key, as `JSON.parse` keeps the last of a repeated key, or there is none. |
| Json.Utf16Length | src/bot/message.js:717 | A string's `length` counts UTF-16 code units, at least one per character. |
| Json.Stringify | src/bot/message.js:706 | definition: `JSON.stringify` of a parsed value, compact, members in their stored order. |
| Json.JsonToString | src/bot/message.js:721 | definition: `String(v)` of a parsed value: arrays joined by `,` with null elements empty, objects as `[object Object]`. |
| Json.Get | src/bot/message.js:715-717 | definition: `base[key]`: an object member, an array element or length, a string's character or length, and nothing for numbers and booleans. |
| Json.CharAtUnit | src/bot/message.js:715-717 | definition: the character at a UTF-16 code unit of a string, none past the end or at half of a surrogate pair. |
| Users.Find | src/bot/users.ts:35 | `findOne({ userId })` finds a row exactly when one has that id, and what it finds has that id. |
| Users.ChatOf | src/bot/users.ts:34-51 | `getChatOf` gives 0 for an unknown user. Otherwise it gives the online or offline chat time, clamped to `Number.MAX_SAFE_INTEGER`. |
| Users.WatchedOf | src/bot/users.ts:84-94 | `getWatchedOf` gives 0 for an unknown user, otherwise the clamped watched time. |
| Users.MessagesOf | src/bot/users.ts:96-106 | `getMessagesOf` gives 0 for an unknown user, otherwise the clamped message count. |
| Users.Clamp | src/bot/users.ts:45-47 | The value, or `MAX_SAFE_INTEGER` when it is larger. |
| Users.SaveAdjusted | src/bot/users.ts:182-184 | After the adjustment, the points given for messages never exceed the messages. A row already within bounds is unchanged, and no other column changes. |
| Users.CountOnline | src/bot/users.ts:71 | The number of online rows is at most the number of rows. |
| Users.CountNew | src/bot/users.ts:62 | New chatters are some of the online rows. |
| Users.Bumped | src/bot/users.ts:66-77 | An online row gains 30000 in the incremented counter only. An offline row is unchanged. |
| Users.IncrementAll | src/bot/users.ts:66-77 | Every row is bumped, one for one. |
| Users.AllOffline | src/bot/users.ts:58 | Every row goes offline and nothing else changes. |
| Users.NobodyOnlineAfterInit | src/bot/users.ts:56-58 | After start-up nobody is online, so nobody is a new chatter. |
| Users.IncrementTotal | src/bot/users.ts:66-77 | An increment adds 30000 per online row to that counter's total. |
| Users.IncrementOthers | src/bot/users.ts:66-77 | An increment leaves the other counters' totals alone. |
| Users.IncrementKeepsOnline | src/bot/users.ts:70-72 | An increment keeps who is online, so counting afterwards gives the number of rows it affected. |
| Users.TickEffect | src/bot/users.ts:59-78 | A tick: online viewers of a live stream gain watched time and online chat time, those of an offline stream gain offline chat time, and nobody else changes. |
| Users.TickTotals | src/bot/users.ts:59-78 | A tick adds 30000 per online viewer to the watched and online-chat totals of a live stream, or to the offline-chat total of an offline one, and leaves the other totals alone. |
| Users.Stats.constructor | src/bot/users.ts:63-74 | Starts the two `api.stats` counters at the given values. |
| Users.UserTable.constructor | src/bot/users.ts:18 | Starts the table with the given rows. |
| Users.UserTable.SetAllOffline | src/bot/users.ts:58 | The rows end as `AllOffline`. |
| Users.UserTable.Increment | src/bot/users.ts:66 | The rows end as `IncrementAll`, and the number affected is the number of online rows. |
| Users.UserTable.CountNewChatters | src/bot/users.ts:62 | The number of online rows with no watched time. |
| Users.UserTable.CountOnlineUsers | src/bot/users.ts:71 | The number of online rows. |
| Users.UserTable.UpdateWatchTime | src/bot/users.ts:53-82 | Start-up takes everyone offline and leaves the statistics alone. A tick adds the new chatters and bumps the counters as `Ticked` says. When live, it adds 30000 per online viewer to the watched-time statistic, whether or not the driver reports the rows affected. |
| Users.UserTable.UsernamesFromIds | src/bot/users.ts:108-120 | An id is mapped exactly when it is listed and has a row, and it maps to that row's name. A found id is looked up once, and an id without a row is looked up every time it occurs. |
| Users.Ticked | src/bot/users.ts:59-78 | definition: the table after a tick that is not the start-up one: watched and online chat time when live, offline chat time otherwise. |
| HowLongToBeat.IndexOfGame | src/bot/systems/howlongtobeat.ts:52 | The first row for the game, or none at all. |
| HowLongToBeat.Advanced | src/bot/systems/howlongtobeat.ts:54-55 | Each time grows by 15000 exactly when its finished flag is set, and nothing else changes. |
| HowLongToBeat.NewGame | src/bot/systems/howlongtobeat.ts:61-73 | A new row is built from the first search result, or zeros and an empty image without one. It is unfinished, with both times at the given value. |
| HowLongToBeat.Timestamped | src/bot/systems/howlongtobeat.ts:43-79 | An ignored current game changes nothing. A known game is advanced only when its main play time is known. An unknown game is added, with 15000 on both clocks, only when the search gives it a main play time. Otherwise nothing changes. |
| HowLongToBeat.TickTouchesOneRow | src/bot/systems/howlongtobeat.ts:52-59 | A tick that adds no row changes only the current game's row, and only its two times. |
| HowLongToBeat.TickAddsNewGame | src/bot/systems/howlongtobeat.ts:60-78 | A tick that adds a row adds exactly one, for the current game, with a known main play time; the old rows stay as they were. |
| HowLongToBeat.Requested | src/bot/systems/howlongtobeat.ts:84-94 | The argument if there is one, else the current game, else nothing. |
| HowLongToBeat.GameInfo | src/bot/systems/howlongtobeat.ts:83-143 | Without a game there is no reply. A found game is shown. A retry only reads, and a game missing on retry is reported. The table grows by at most one row. |
| HowLongToBeat.RetriesOnce | src/bot/systems/howlongtobeat.ts:96-124 | A first attempt that misses answers what the retry answers on the table it leaves, and always replies. |
| HowLongToBeat.CurrentGameCreated | src/bot/systems/howlongtobeat.ts:106-124 | Asking for a current game without a row shows the row just created, with no time played, when the search knows the game. Otherwise the game is reported as missing. |
| HowLongToBeat.OtherGameReported | src/bot/systems/howlongtobeat.ts:96-127 | Asking for another game than the current one, when it has no row, always ends in the error reply, even when the current game's row is created on the way. |
| HowLongToBeat.GameTable.constructor | src/bot/systems/howlongtobeat.ts:16 | Starts the table with the given rows. |
| HowLongToBeat.GameTable.FindGame | src/bot/systems/howlongtobeat.ts:52 | The linear search finds the index `IndexOfGame` gives. |
| HowLongToBeat.GameTable.Save | src/bot/systems/howlongtobeat.ts:58 | A found row is replaced and a new row appended. |
| HowLongToBeat.GameTable.AddToGameTimestamp | src/bot/systems/howlongtobeat.ts:43-79 | The rows end as `Timestamped`. |
| HowLongToBeat.GameTable.CurrentGameInfo | src/bot/systems/howlongtobeat.ts:83-143 | The reply and the rows are what `GameInfo` says. |
| HowLongToBeat.Ignored | src/bot/systems/howlongtobeat.ts:44-50 | definition: a current game that is missing, blank or `IRL` once trimmed. |
| Highlights.FindSetting | src/bot/systems/highlights.ts:54 | The first setting whose URL ends with the request's, or none when no setting matches. |
| Highlights.UrlResponse | src/bot/systems/highlights.ts:52-77 | 404 exactly for an unknown link. A disabled system or an offline stream gives 412 and does nothing. 403 answers exactly a clip setting whose clip failed. A clip is requested only on a 200 or 403, and a highlight made only on a 200 whose setting asks for one. |
| Highlights.OrNa | src/bot/systems/highlights.ts:108-109 | `value \|\| 'n/a'`, never empty. |
| Highlights.Padded | src/bot/systems/highlights.ts:135-137 | At least two digits. |
| Highlights.PaddedRoundTrip | src/bot/systems/highlights.ts:135-137 | The padded number reads back as the number. |
| Highlights.SavedHours | src/bot/systems/highlights.ts:134-137 | A template holding `$hours` once gets exactly the padded hours in its place. |
| Highlights.MainOutcome | src/bot/systems/highlights.ts:81-130 | Offline is checked first, then the token: only an online stream with a token, a channel id and a video is saved. The highlight carries the first video's id, the elapsed time, and the game and title or `n/a`. |
| Highlights.HighlightTable.constructor | src/bot/systems/highlights.ts:29 | Starts the table with the given rows. |
| Highlights.HighlightTable.SaveHighlight | src/bot/systems/highlights.ts:81-130 | The outcome is `MainOutcome`, and exactly a saved highlight is inserted. |
| Highlights.HighlightTable.Add | src/bot/systems/highlights.ts:132-140 | Sends the padded saved message and appends the row. |
| Highlights.FirstIsLatest | src/bot/systems/highlights.ts:145-150 | In rows ordered newest first, the first is a most recent one. |
| Highlights.OfVideo | src/bot/systems/highlights.ts:158 | The filter keeps only rows of that video, taken from the input, and keeps a matching head first. |
| Highlights.OfVideoCounts | src/bot/systems/highlights.ts:158 | Every row of the video is kept, as many times as it occurs in the input, and no other row. |
| Highlights.OfVideoAppend | src/bot/systems/highlights.ts:158 | Filtering a concatenation filters each part in turn, so kept rows keep their input order. |
| Highlights.OfVideoNewestFirst | src/bot/systems/highlights.ts:145-158 | Rows in query order (newest first) stay in that order once filtered. |
| Highlights.OfVideoStep | src/bot/systems/highlights.ts:158 | One row of the scan is kept exactly when it belongs to the video. |
| Highlights.OfVideoCons | src/bot/systems/highlights.ts:158 | The filter keeps the head exactly when it belongs to the video, then filters the rest. |
| Highlights.Items | src/bot/systems/highlights.ts:159-161 | One item per row. |
| Highlights.ItemsAt | src/bot/systems/highlights.ts:159-161 | Item k is row k's timestamp as `<h>h<m>m<s>s`. |
| Highlights.ItemsSnoc | src/bot/systems/highlights.ts:159-161 | A longer list gets the new row's item at the end. |
| Highlights.ListMessage | src/bot/systems/highlights.ts:144-165 | No rows gives the empty text. Otherwise `$items` is filled with the items, joined by `, `, of exactly the rows `OfVideo` keeps for the latest video: each of its highlights, with its multiplicity, in query order. |
| Highlights.ListOfLatest | src/bot/systems/highlights.ts:150-161 | With rows present, the list holds every highlight of the latest video, as many times as the query returns it, and no other. It stays newest first and starts with a most recent highlight. |
| Highlights.List | src/bot/systems/highlights.ts:144-165 | The loop builds the message `ListMessage` gives. |
| Highlights.SavedMessage | src/bot/systems/highlights.ts:134-137 | definition: the saved message with `$hours`, `$minutes` and `$seconds` filled in with at least two digits. |
| Highlights.NewestFirst | src/bot/systems/highlights.ts:147 | definition: rows ordered by `createdAt` descending. |
| Randomizer.FindCommand | src/bot/registries/randomizer.ts:108 | A row with that command, or none exactly when no row has it. |
| Randomizer.UpdateAll | src/bot/registries/randomizer.ts:55 | Every row gets the flag and nothing else changes. |
| Randomizer.UpdateById | src/bot/registries/randomizer.ts:56 | Exactly the rows with that id get the flag. |
| Randomizer.ShownIndices | src/bot/registries/randomizer.ts:84 | Exactly the indices of the shown rows. |
| Randomizer.HideThenSet | src/bot/registries/randomizer.ts:53-61 | Hiding all and then setting one id: exactly that id has the new flag, at most one row is shown, and nothing else changes. |
| Randomizer.AtMostOneShown | src/bot/registries/randomizer.ts:53-61 | Rows with unique ids, showing only the rows of one id, show at most one row. |
| Randomizer.HideAllHides | src/bot/registries/randomizer.ts:62-69 | After hiding all, none is shown. |
| Randomizer.Words | src/bot/registries/randomizer.ts:106 | The command is the first piece of `split(' ')`, and the subcommand the second when there is one. |
| Randomizer.RunEffect | src/bot/registries/randomizer.ts:101-134 | A non-command, or an unknown command, changes nothing. A change to the rows emits no spin, and a spin happens only for `go` and changes no row. A permitted `go` spins with the rows unchanged. Any other non-empty subcommand changes no row and spins nothing; only the permission cache may be filled. |
| Randomizer.PermissionCached | src/bot/registries/randomizer.ts:113-124 | After a known command, the permission is cached. A cached answer is kept and used without consulting the check, and a missing one is filled from the check. |
| Randomizer.CacheAfterRun | src/bot/registries/randomizer.ts:113-119 | The cache afterwards, exactly. |
| Randomizer.CachedAnswerUsed | src/bot/registries/randomizer.ts:113-122 | With the answer cached, the check is not consulted. |
| Randomizer.DeniedChangesNothing | src/bot/registries/randomizer.ts:121-124 | A denied user changes no randomizer and spins nothing. |
| Randomizer.ToggleShowsAtMostOne | src/bot/registries/randomizer.ts:126-128 | The bare command toggles its randomizer and hides the others, so at most one is shown. |
| Randomizer.Randomizers.constructor | src/bot/registries/randomizer.ts:11-12 | Starts with the given rows and an empty cache. |
| Randomizer.Randomizers.SetAll | src/bot/registries/randomizer.ts:55 | The rows end as `UpdateAll`, and the cache is untouched. |
| Randomizer.Randomizers.SetById | src/bot/registries/randomizer.ts:56 | The rows end as `UpdateById`, and the cache is untouched. |
| Randomizer.Randomizers.ShowById | src/bot/registries/randomizer.ts:53-61 | All rows are hidden, then the id is shown. |
| Randomizer.Randomizers.HideAll | src/bot/registries/randomizer.ts:62-69 | All rows are hidden. |
| Randomizer.Randomizers.Run | src/bot/registries/randomizer.ts:101-134 | Always answers `true`. The rows, the cache and the spin are what `RunEffect` says. |
| Text.VariablesAreTokens | src/bot/registries/text.ts:16 | Every variable found is `$_` followed by word characters, and occurs in the text. |
| Text.PlaceholderShowsName | src/bot/registries/text.ts:44 | The placeholder of a variable shows that variable in bold. |
| Text.ValueFor | src/bot/registries/text.ts:43-47 | A set variable gives its value, or `''` when it has none. An unset one gives its placeholder. |
| Text.FindText | src/bot/registries/text.ts:38 | The item with that id, or none exactly when no item has it. |
| Text.Callbacks | src/bot/registries/text.ts:37-54 | For a found item whose filled text `parse` accepts, the callback gets the item with that parsed text, then `null`. When `parse` rejects, no callback is made at all, and that is the only way to get none. For an unknown id, only `null`. Whenever there are callbacks, the last is `null`. |
| Text.GetOne | src/bot/registries/text.ts:37-54 | The handler makes exactly the callbacks `Callbacks` lists. |
| Text.FillVariables | src/bot/registries/text.ts:42-49 | The loop replaces each variable found, in order, everywhere, as `Substituted` says. |
| Text.SubstitutedStep | src/bot/registries/text.ts:48 | One more variable is handled on what the earlier ones left. |
| Text.PrefixVariableLost | src/bot/registries/text.ts:48 | As written, `$_a $_ab` with `$_a = x` and `$_ab = y` becomes `x xb`. |
| Text.ShortNameFirst | src/bot/registries/text.ts:48 | Replacing `$_a` everywhere also takes the head of `$_ab`. |
| Text.FieldTwice | src/bot/registries/text.ts:48 | Both occurrences of a `$` field are replaced. |
| Text.ExampleVariables | src/bot/registries/text.ts:42 | The variables found in `$_a $_ab` are `$_a` and then `$_ab`. |
| Text.ExampleWords | src/bot/registries/text.ts:16 | The word matches of the example at each position. |
| Text.PrefixVariableKept | src/bot/registries/text.ts:42-49 | Replacing each token where it was found gives `x y`: both variables keep their values. |
| Text.TokensReplacedPlain | src/bot/registries/text.ts:42-49 | Whole-token replacement copies a text without `$` unchanged. |
| Text.NoVariablesPlain | src/bot/registries/text.ts:42 | A text without `$` holds no variable. |
| Text.PlainTextKept | src/bot/registries/text.ts:42-49 | On a text without `$`, the loop as written and whole-token replacement agree: both keep the text. |
| Text.VariablesIn | src/bot/registries/text.ts:16 | definition: the matches of `/\$_[a-zA-Z0-9_]+/g`, or none. |
| Text.Substituted | src/bot/registries/text.ts:42-49 | definition: the text after the loop has handled the variables in order, each replaced everywhere by its value. |
| Text.TokensReplaced | src/bot/registries/text.ts:42-49 | definition: the intended result: each variable token replaced once, where it was found, by its own value. |

## Left out

- I/O and collaborators: the database, sockets, HTTP, timers, the clock, randomness,
  `safe-eval`, `mathjs`, the translations and the HowLongToBeat search service. They
  are inputs, or their effects are logged as `Effect`s.
- The ticker re-arming (`setTimeout` in `users.ts:81`, `setInterval` in
  `howlongtobeat.ts:25-30`): only one tick is modelled.
- `(eval …)`: as written, `users.get` is called on a local empty array, so every call
  throws. The model's eval resolver therefore always throws, and every `(eval …)` makes
  `parse` reject. `safe-eval` is not modelled.
- `(price)`: the local `price` shadows the price system, so the model always shows 0
  followed by the points name. This assumes `points` resolves (see the next line).
- `points`, `permissions` and `currency` are not imported in `message.js` (lines 1-31):
  - `points.getPointsName` is used at lines 385 and 446;
  - `permissions.get` at lines 416 and 428;
  - `currency.exchange` at lines 313-314.

  The model assumes these three names resolve to working collaborators and makes them
  inputs (`Tables.pointsName`, `Tables.permissionId`, `topTip`). If they are not globals
  defined elsewhere, each use throws a `ReferenceError` and the runner rejects the
  parse. That would happen for:
  - the `(price)` resolver, always;
  - `Lists.PriceText`, that is `(list.price)`, when the table has rows;
  - `Lists.CommandsFor` and `Lists.CommandsForCounts`, when a permission is given;
  - `$toptip`, with two or more tips.

  The model shows the formatted text in all of these cases.
- `(math.…)`, `$toptip`, `(stream|…|…)`, `$count`: the lookups they make are inputs;
  currency exchange and floats are not modelled.
- HowLongToBeat.GameInfo: the retries `this.currentGameInfo(opts, true)` at
  howlongtobeat.ts:98, 103 and 123 are not awaited, so the handler returns before the
  retry replies. The model runs the retry in sequence, after the first attempt, and
  does not capture how it interleaves with other commands.
- howlongtobeat.ts:129-142: hours as `toFixed(1)` and percentages as `toFixed(2)` are
  floating point. The reply carries the row instead of the formatted numbers.
- Highlights: `createMarker`, the rate-limit headers, `panel.io.emit` and the logging
  are left out. The elapsed time is an input.
- `global`'s `opts.escape`: it is never set by `parse`, so it is not modelled.
- The api pass's `_.isBuffer` branch is not needed: bodies are already parsed JSON.
- The text returned by the api stage when the status is not 200 is ignored by
  `parse`, and the model ignores it too.
- The second argument of `parseMessageEval` is ignored by the source and is not
  modelled.
- Regular-expression group shapes other than `[a-zA-Z0-9_]+` (the lazy and greedy
  `#` groups) come from an oracle, filtered to the shape every such match has.
- Local replaces use the attribute keys as regular expressions. The model treats them
  as literals, which they are for the keys `parse` receives.
- `Object.entries(attr)`: the model fixes the entry order.
- Numbers a resolver returns are integers; fractional numbers are not modelled.
  `Lists.Seconds` and `Lists.SecondsRoundTrip` always write plain decimal digits.
  `String(ms / 1000)` switches to exponent notation from 1e21 on.
- Resolvers.ToFinite: evaluates only decimal integers and non-numeric text. lodash's
  `toFinite` also reads hexadecimal (`0x10`), binary (`0b1`), octal (`0o7`), exponent
  forms (`1e1`), fractions and `Infinity` as numbers. For these the model gives no number
  and the resolver shows 0 without a draw. So `(random.number-0x10-to-20)` shows 0 in the
  model, where the source draws from 16 to 20.
- When `parse` rejects, the buffer is left unspecified.
- Text overlay: `Message.parse` inside `text::getOne` is an input function, which gives
  `None` when the parse rejects.
- The randomizer's `items` relation and its socket handlers other than `showById`
  and `hideAll` are not part of this model.
- `viewers::save`'s recount of tip `sortAmount` uses currency exchange on floats and
  is not modelled.
- Lists.List: its own contract states only the unknown-system and non-empty cases.
  The per-system formatting is stated by `SortedList`, `CommandsFor`,
  `CommandsForCounts`, `OrderByHours` and `SecondsRoundTrip`.
- Json.Stringify: a `JObj` holds the members of the response text as written, which
  `Json.Lookup` reads as `JSON.parse` does (the last of a repeated key wins). `Stringify`
  prints them as held. `JSON.stringify` of the parsed object prints a repeated key once,
  at its first position with its last value, and integer-like keys first in ascending
  order. So for a body `{"a":1,"a":2}` the source shows `{"a":2}` for `(api._response)`,
  where the model shows `{"a":1,"a":2}`.
- Json.Get: only own properties are modelled. Inherited (prototype) properties are not:
  `constructor` and `toString` on an object, array methods such as `map`, string
  methods, and `toFixed` on a number. For these `path[id]` (message.js:715-718) reaches
  a function, which `replace` (message.js:721) then calls as a replacer. The model gives
  none, so the accessor shows the not-available text.
- Json.CharAtUnit: a Dafny `char` cannot hold a lone surrogate. At either half of a
  surrogate pair the model gives no character, so the accessor shows the not-available
  text, where the source shows the lone surrogate.
- Resolvers.Resolve: its own contract states only that draws never decrease. Each
  resolver's contract, and `ResolveKeepsAttr` and `ResolveAppendsEffects`, state the
  rest.

## Findings

| source | as written | input that shows it | evidently intended | confidence | as-written member | corrected member |
|---|---|---|---|---|---|---|
| src/bot/registries/text.ts:48 | Each variable is replaced everywhere with a global regular expression, in the order found, so a variable whose name extends another's is rewritten by the shorter one first. | text `$_a $_ab` with `$_a = x` and `$_ab = y` gives `x xb` | each variable token replaced by its own value: `x y` | high, not executed | Text.PrefixVariableLost | Text.PrefixVariableKept |

`Text.GetOne` models the code as written (`Text.Substituted`). `Text.TokensReplaced`
is the whole-token replacement the finding calls for.
