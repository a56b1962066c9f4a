# pmxbot factoid plugin: a Dafny model

This project models the factoid plugin for the pmxbot IRC bot. Users teach the bot a factoid with
`X is Y`, correct it with `no, X is Y`, ask for it with `What is X?` or `Where is X?`, and drop it
with `forget X`. Every factoid lives in one SQLite table, `factoids (channel, key, factoid)`. The
table's PRIMARY KEY is on `key` alone, but reads and deletes filter on both `channel` and `key`.
Most of what is proved here is about how that table-wide key meets the channel-scoped reads.

Modules:

- `Optional` (`option.dfy`): the `Option` type. It stands for Python's `None` or a value.
- `PyText` (`text.dfy`): the parts of Python 3 string and `re` behaviour the handlers rely on.
  - `str.strip()` with the `str.isspace` whitespace set.
  - What `.*` consumes: the text up to the first newline.
  - How IGNORECASE compares a line character with an ASCII template character. Besides ASCII case, Python 3 lets U+0130 and U+0131 match `i`, U+017F match `s` and U+212A match `k`.
- `FactoidStore` (`store.dfy`): the `factoids` table as a sequence of rows in storage order.
  - Each SQL statement is a pure function on that sequence. SELECT returns the first match, DELETE ... WHERE filters rows out, INSERT OR REPLACE drops the row with the key and appends the new row.
  - The class `SQLiteFactoid` owns the table as its one field, `rows`. Its methods `get_factoid`, `set_factoid`, `update_factoid` and `delete_factoid` apply those functions to `rows`.
  - `Valid()` is the primary-key constraint, and every method preserves it.
- `FactoidHandlers` (`handlers.dfy`): the four line handlers.
  - Each regular expression is a matcher function. Its contract characterises when the template matches and the groups it captures: where the lazy `.+?` closes, where the greedy `.*[^?]` closes (through `QueryKey`), what the optional group leaves unset, and where `.*` stops (through `RestOfLine`).
  - Each handler is a method over the store, or a function, `AskFactoid`, for the read-only `getFactoid`. Its contract states the reply and the new table.
- `FactoidScenario` (`scenario.dfy`): short exchanges from an empty table, each with its exact replies.

Choices made where the code leaves something open:

- `random.choice(flavors)` becomes a parameter `choice < |Flavors|`.
- The query and delete templates are registered through pmxbot's `regexp` helper. That helper is not part of this model, so whether it ignores case is a parameter, `ignoreCase`.
- The two templates registered here, create and replace, are compiled with `re.IGNORECASE` (`factoid.py:18`). They are modelled with case-insensitive matching.
- `[^What|Where]` is a negated character class, not an alternative between words. It keeps any line whose first character is one of `w h a t | e r`, in either case, from teaching a factoid. The `.+?` that follows needs one more character, so a taught key has at least two characters before stripping.
- A query whose optional group is unset, for example `What is ?`, asks SQLite for `key = NULL`. No row satisfies that, so there is no reply.

A refused `X is Y` quotes `get_factoid(channel, key)` (`factoid.py:59`), which filters on the
channel, so when the key belongs to another channel the reply is `But X is already None`
(`FactoidScenario.TeachInTwoChannels`).

## Model

| member | source | states |
|---|---|---|
| FactoidStore.Select | pmxbot_factoid/factoid.py:45-51 | SELECT ... WHERE channel = ? AND key = ?: a value is returned only if a row holds that channel, key and value; None exactly when no row matches both columns |
| FactoidStore.DeleteWhere | pmxbot_factoid/factoid.py:72-75 | DELETE ... WHERE channel = ? AND key = ?: the rows kept are exactly the rows not matching both columns, and the table never grows |
| FactoidStore.WithoutKey | pmxbot_factoid/factoid.py:39 | REPLACE conflict resolution on the PRIMARY KEY (key): the rows kept are exactly those with another key, in any channel |
| FactoidStore.InsertOrReplace | pmxbot_factoid/factoid.py:64 | INSERT OR REPLACE: the new row is stored last, and the rows kept are exactly the new row and the old rows with another key, in any channel |
| FactoidStore.SQLiteFactoid.constructor | pmxbot_factoid/factoid.py:38-43 | a freshly created table is empty and satisfies the primary-key constraint |
| FactoidStore.SQLiteFactoid.GetFactoid | pmxbot_factoid/factoid.py:45-51 | under the primary key, get_factoid returns Some(v) exactly when the row (channel, key, v) is in the table |
| FactoidStore.SQLiteFactoid.SetFactoid | pmxbot_factoid/factoid.py:53-61 | a key absent from every channel is appended and reported inserted; a key present in any channel raises the integrity error: table unchanged, outcome Conflict with this channel's get_factoid value; the constraint is kept |
| FactoidStore.SQLiteFactoid.UpdateFactoid | pmxbot_factoid/factoid.py:63-70 | INSERT OR REPLACE always succeeds; afterwards this channel reads the new value, no other channel reads the key, every other key reads as before, and the constraint is kept |
| FactoidStore.SQLiteFactoid.DeleteFactoid | pmxbot_factoid/factoid.py:72-80 | always reports success; afterwards the (channel, key) pair reads None, every other pair reads as before, and the constraint is kept |
| FactoidStore.ConsKeysUnique | pmxbot_factoid/factoid.py:39 | a row placed in front of a table keeps keys unique if and only if the table does and holds no row with its key |
| FactoidStore.InsertKeepsKeysUnique | pmxbot_factoid/factoid.py:54-56 | a plain INSERT that passes the primary-key check keeps keys unique |
| FactoidStore.DeleteKeepsKeysUnique | pmxbot_factoid/factoid.py:73-75 | DELETE keeps keys unique |
| FactoidStore.WithoutKeyKeepsKeysUnique | pmxbot_factoid/factoid.py:64-66 | dropping every row of a key keeps keys unique and leaves no row with that key in any channel |
| FactoidStore.ReplaceKeepsKeysUnique | pmxbot_factoid/factoid.py:64-66 | INSERT OR REPLACE keeps keys unique |
| FactoidStore.SelectIsTheRow | pmxbot_factoid/factoid.py:45-51 | under the primary key, SELECT returns Some(v) exactly when (channel, key, v) is a row: the first-row pick `result[0][0]` loses nothing |
| FactoidStore.ForeignKeyHidden | pmxbot_factoid/factoid.py:58-60 | a key held by another channel's row reads None in this channel, which is the value a conflicting set_factoid reports |
| FactoidStore.SelectAppend | pmxbot_factoid/factoid.py:46-49 | SELECT over two runs of rows returns the first run's match if it has one, else the second run's |
| FactoidStore.WithoutKeyKeepsOtherKeys | pmxbot_factoid/factoid.py:64 | dropping one key's rows changes no read of any other key |
| FactoidStore.ReplaceThenSelect | pmxbot_factoid/factoid.py:64 | after INSERT OR REPLACE, the row's channel reads the new value and every other channel reads None for that key |
| FactoidStore.ReplaceKeepsOtherKeys | pmxbot_factoid/factoid.py:64 | INSERT OR REPLACE changes no read of any other key |
| FactoidStore.DeleteKeepsOtherPairs | pmxbot_factoid/factoid.py:73 | DELETE changes no read of any other (channel, key) pair |
| FactoidStore.DeleteOfAbsentPair | pmxbot_factoid/factoid.py:72-80 | deleting a pair no row holds, such as a key owned by another channel, leaves the table exactly as it was, although success is still reported |
| PyText.StripLeft | pmxbot_factoid/factoid.py:94-95 | lstrip: the result is a suffix that is empty or starts with a non-space, and every dropped character is whitespace |
| PyText.StripRight | pmxbot_factoid/factoid.py:94-95 | rstrip: the result is a prefix that is empty or ends with a non-space, and every dropped character is whitespace |
| PyText.Strip | pmxbot_factoid/factoid.py:94-95 | strip: the result is a slice of the input with only whitespace on either side, and is empty or begins and ends with a non-space |
| PyText.StripLeftSlice | pmxbot_factoid/factoid.py:94 | lstrip leaves a slice with only whitespace before it |
| PyText.StripRightSlice | pmxbot_factoid/factoid.py:94 | rstrip of a slice with only whitespace around it is again such a slice at the same position, and keeps a non-space first character |
| PyText.StripTrimmed | pmxbot_factoid/factoid.py:103-104 | strip leaves text that neither begins nor ends with whitespace unchanged |
| PyText.RestOfLine | pmxbot_factoid/factoid.py:92 | `.*` takes the longest prefix without a newline: it stops at the end of the text or just before a newline |
| PyText.RestOfPlainLine | pmxbot_factoid/factoid.py:123 | on text without a newline, `.*` takes all of it |
| FactoidHandlers.FindGroupEnd | pmxbot_factoid/factoid.py:92 | the lazy `.+?` search returns the first position where ` is ` follows a newline-free group, and None exactly when there is no such position |
| FactoidHandlers.MatchCreate | pmxbot_factoid/factoid.py:92 | the create template matches if and only if the first character lies outside `[^What\|Where]` (case-insensitive) and ` is ` closes a newline-free `.+?`; the key is the line up to the first such ` is ` (at least two characters), and the value is the rest of that line |
| FactoidHandlers.MatchReplace | pmxbot_factoid/factoid.py:101 | the replace template matches if and only if the line starts with `no, ` (case-insensitive) and a ` is ` closes a newline-free `.+?`; the key runs from index 4 to the first such ` is `, and the value is the rest of that line |
| FactoidHandlers.LongestQueryGroup | pmxbot_factoid/factoid.py:112 | backtracking `.*[^?]` from the right returns the longest group end whose last character is not '?', and None when there is none |
| FactoidHandlers.QueryKey | pmxbot_factoid/factoid.py:112 | the optional query group is unset if and only if no prefix can end in `[^?]`; otherwise it is the longest prefix that does |
| FactoidHandlers.DropQuestionMarks | pmxbot_factoid/factoid.py:112 | reference for the query group: a prefix of the input that is empty or does not end in '?', with only '?' dropped after it |
| FactoidHandlers.QueryKeyDropsQuestionMarks | pmxbot_factoid/factoid.py:112-114 | on a single line, the query key is the text with every trailing '?' dropped, and unset when nothing remains |
| FactoidHandlers.MatchQuery | pmxbot_factoid/factoid.py:112 | the query template matches if and only if the line starts with `What is ` or `Where is ` (under the case flag); the two alternatives never both match, and the key is the optional group `QueryKey` of the text after whichever prefix matched |
| FactoidHandlers.PrefixesExclusive | pmxbot_factoid/factoid.py:112 | no line starts with both `What is ` and `Where is `, under either case flag, so the order of the alternation does not matter |
| FactoidHandlers.MatchDelete | pmxbot_factoid/factoid.py:123 | the delete template matches if and only if the line starts with `forget ` (under the case flag); the key is the text after it up to the first newline or the end, unstripped |
| FactoidHandlers.FirstGroupEndAt | pmxbot_factoid/factoid.py:92 | when ` is ` follows a run with no space or newline, the lazy group closes exactly there |
| FactoidHandlers.TeachLine | pmxbot_factoid/factoid.py:92-95 | `key is value` yields exactly the groups (key, value) when the key has two or more characters, starts outside the excluded class, and holds no space, and no newline occurs |
| FactoidHandlers.CorrectLine | pmxbot_factoid/factoid.py:101-104 | `no, key is value` yields exactly the groups (key, value) when the key is non-empty and holds no space, and no newline occurs |
| FactoidHandlers.ForgetLine | pmxbot_factoid/factoid.py:123-125 | `forget key` yields exactly `key`, unstripped, when it holds no newline |
| FactoidHandlers.AskLine | pmxbot_factoid/factoid.py:112-114 | `What is key?` asks for exactly `key` when the key is non-empty, holds no newline and does not end in '?' |
| FactoidHandlers.QueryNeverTeaches | pmxbot_factoid/factoid.py:92 | no line the query template matches is matched by the create template: `W` is in the excluded class |
| FactoidHandlers.CorrectionAlsoTeaches | pmxbot_factoid/factoid.py:92 | every line the replace template matches is also matched by the create template, whose key starts with `no,` and ends no later than the replace key |
| FactoidHandlers.CreateFactoid | pmxbot_factoid/factoid.py:92-98 | no match: no reply, table unchanged; a new stripped key is stored silently; a key held in any channel leaves the table unchanged and replies `But <key> is already <this channel's value or None>` |
| FactoidHandlers.ReplaceFactoid | pmxbot_factoid/factoid.py:101-109 | no match: no reply, table unchanged; otherwise INSERT OR REPLACE of the stripped pair, the reply is always "Got it!", and this channel then reads the new value |
| FactoidHandlers.AskFactoid | pmxbot_factoid/factoid.py:112-121 | a reply exists if and only if the line is a query with a set key that this channel holds, and it is `<flavor> <key> is <value>` for that row's value; the table is only read |
| FactoidHandlers.DelFactoid | pmxbot_factoid/factoid.py:123-128 | no match: no reply, table unchanged; otherwise DELETE of the (channel, unstripped key) pair, the reply is always "Like it was never there...", and the pair then reads None |
| FactoidScenario.PlainKeyChars | pmxbot_factoid/factoid.py:92 | a key with no whitespace holds no space and no newline, so no template splits it |
| FactoidScenario.PlainGroupsStripped | pmxbot_factoid/factoid.py:94-95 | stripping leaves a plain key and value unchanged |
| FactoidScenario.PlainTeach | pmxbot_factoid/factoid.py:92-95 | the create handler receives a plain key and value exactly as written |
| FactoidScenario.PlainCorrect | pmxbot_factoid/factoid.py:101-104 | the replace handler receives a plain key and value exactly as written |
| FactoidScenario.PlainAskAndForget | pmxbot_factoid/factoid.py:112-125 | the query and delete handlers receive a plain key exactly as written |
| FactoidScenario.Teach | pmxbot_factoid/factoid.py:92-98 | `key is value` either appends the row silently or, when the key exists in any channel, replies with the conflict and leaves the table unchanged |
| FactoidScenario.Correct | pmxbot_factoid/factoid.py:101-109 | `no, key is value` replies "Got it!" and performs INSERT OR REPLACE of the row |
| FactoidScenario.Ask | pmxbot_factoid/factoid.py:112-121 | `What is key?` replies with the flavored value exactly when this channel's SELECT finds one |
| FactoidScenario.Forget | pmxbot_factoid/factoid.py:123-128 | `forget key` replies "Like it was never there..." and deletes the pair |
| FactoidScenario.TeachInTwoChannels | pmxbot_factoid/factoid.py:53-61 | teaching a key taught in another channel is refused with `But <key> is already None` |
| FactoidScenario.CorrectThenAsk | pmxbot_factoid/factoid.py:63-70 | two corrections both reply "Got it!" and the later value is the one read back |
| FactoidScenario.CorrectionMovesKey | pmxbot_factoid/factoid.py:63-70 | correcting a key from another channel moves it: the first channel no longer reads it, the second reads the new value |
| FactoidScenario.ForgetElsewhere | pmxbot_factoid/factoid.py:72-80 | forgetting in a channel that does not hold the key reports success, and the owning channel still reads the value |
| FactoidScenario.TeachAskForget | pmxbot_factoid/factoid.py:92-128 | in one channel: teach is silent, ask returns the value, forget replies, and asking again gets no reply |

## Left out

- Handler registration and dispatch (`RegexpFindHandler` and `regexpfind`, `factoid.py:13-24` and `83-89`) are left out. The model takes the line the handler receives. `findall` on an `^`-anchored pattern yields at most one match, and `match[0]` is that match.
- pmxbot's `regexp` helper, `ContainsHandler` and storage base classes are not part of this model. The case flag of the query and delete templates is therefore a parameter.
- The `factoid` command (`factoid.py:130-138`) does nothing but carry help text.
- Store lifecycle (`initialize`, `finalize`, `from_URI`, `factoid.py:26-35`) is left out: it is configuration and I/O.
- SQLite I/O is left out: connections, `commit`, the `factoid_lookup` index (`factoid.py:41`) and rowid allocation. The index does not change any result.
- The `IntegrityError` branch of `update_factoid` (`factoid.py:68-69`) cannot be reached on this schema. `FactoidStore.SQLiteFactoid.UpdateFactoid` always returns true.
- The `IntegrityError` branch of `delete_factoid` (`factoid.py:77-79`) cannot be reached either, because DELETE breaks no constraint. Its `get_factoid(key)` call has the wrong number of arguments, but that line never runs. `FactoidStore.SQLiteFactoid.DeleteFactoid` always returns true.
- `random.choice` is a parameter `choice`, not randomness.
- Concurrency between bot threads sharing one database is left out. So is the generator (`yield`) protocol: a handler's reply is an `Option`.
- Python 2 is not modelled: the model assumes Python 3's `str` semantics for `strip()` and IGNORECASE. Unicode case folding is modelled only for the characters that can match the ASCII letters of the templates.
