# stagtime: the ping schedule and the tag text, in Dafny

stagtime is an Android app that samples the user's time. At pseudorandom
moments ("pings", one second in 3600 on average) it asks what the user is
doing, and the user answers with free-text notes and a set of tags.

This project models the two computational cores of the app and proves
properties of them.

**The ping schedule** (`object Schedule` and its callers):
- `pseudorandomPredicate` decides whether a second is a ping. It runs a fixed
  64-bit mix with wrapping `Long` arithmetic, then tests the signed result
  with Kotlin's truncating `%`.
- `lastBefore` and `firstAfter` scan second by second to the nearest ping
  below or above an instant.
- The main screen keeps a list of recent pings, newest first. It builds the
  list on start, extends it with "load more" and brings it up to date with
  "refresh".
- The ping screen moves to the previous or the next ping, and enables its
  next button only once that ping has come.

**The tag text**:
- The tag editor cuts its text at commas into a set of trimmed, non-empty
  tags. It shows a tag set as the sorted tags joined by ", ".
- The ping screen cuts its new-tag field the same way. It adds those tags to
  the ping, toggles a tag when its button is pressed, and searches the known
  tags by case-insensitive prefix.

Files, one module each:
- `kotlin_long.dfy` (`KotlinLong`): `Long`, its 64-bit pattern, the signed reading, `%`.
- `time.dfy` (`Time`): the part of `java.time.Instant` that is used, and `DateTimeException` as a `Result`.
- `schedule.dfy` (`Schedule`): the predicate, the two scans and their specification.
- `nearby_pings.dfy` (`NearbyPings`): the main screen's list, as a class with its loops.
- `kotlin_text.dfy` (`KotlinText`): `isWhitespace`, `trim`, `isBlank`, `split`, `joinToString`.
- `string_order.dfy` (`StringOrder`): `String` order and `sorted()` of a set.
- `tag_text.dfy` (`TagText`): tag parsing and rendering.
- `ping_screen.dfy` (`PingScreen`): `PingInfo` and the ping screen's tag and navigation actions.

How the scans are modelled:
- The scans have no bound in the code, but they need none. Two pings lie
  just outside the seconds an `Instant` can hold (`Schedule.LowPing` and
  `Schedule.HighPing`, each proved a ping from its trace of intermediate
  values).
- So a scan that starts at an `Instant` stops before it could wrap a `Long`.
- When the ping found is not an `Instant`, `Instant.ofEpochSecond` throws
  `DateTimeException`. The model returns that outcome as a value.

The test `WeakPRNGTest.kt` exercises a `WeakPRNG` generator and a
day-by-day Poisson schedule. `object Schedule` uses neither, and this model
follows `object Schedule`.

`Schedule.IsPing` reaches the remainder test through `Schedule.HashTest`, a
few recursive steps that do nothing. They exist only to keep the verifier
from expanding the 64-bit mix in every proof that mentions a ping.
`Schedule.HashTestIgnoresLayers` proves that the steps change nothing.

## Model

| member | source | states |
|---|---|---|
| KotlinLong.ToBits | app/src/main/java/com/example/stagtime/MainActivity.kt:170 | definition: `var x = input` taken as the 64 bits of its two's-complement representation |
| KotlinLong.ToLong | app/src/main/java/com/example/stagtime/MainActivity.kt:179 | definition: the signed reading of the 64 bits of `x` that `x % RARITY` works on |
| KotlinLong.Rem | app/src/main/java/com/example/stagtime/MainActivity.kt:179 | Kotlin `%` on `Long`: the dividend is the divisor times the truncated quotient plus the remainder; the remainder has the sign of the dividend and is smaller than the divisor in magnitude |
| Time.Instant.IsBefore | app/src/main/java/com/example/stagtime/MainActivity.kt:108 | definition: `isBefore` (and Kotlin's `>` on instants at PingActivity.kt:84): seconds decide, then nanoseconds |
| Time.OfEpochSecond | app/src/main/java/com/example/stagtime/MainActivity.kt:188 | `Instant.ofEpochSecond` succeeds exactly for seconds in `Instant`'s range, giving that whole second with no nanoseconds |
| Schedule.Apply | app/src/main/java/com/example/stagtime/MainActivity.kt:171-177 | definition: one statement of the mix, with `Long`'s wrapping `*`, `+`, `xor`, `ushr` and `shl` on 64 bits |
| Schedule.Run | app/src/main/java/com/example/stagtime/MainActivity.kt:169-177 | definition: the bits of `x` after `var x = input` and the first `n` statements of the mix `Mix` |
| Schedule.IsPing | app/src/main/java/com/example/stagtime/MainActivity.kt:168-179 | definition: `pseudorandomPredicate`, the signed remainder test on the mixed value (see `IsPingIffSignedMultiple`) |
| Schedule.HashTestIgnoresLayers | app/src/main/java/com/example/stagtime/MainActivity.kt:179 | the layered test is the remainder test `x % RARITY == 0L` at every depth |
| Schedule.RemByRarityZero | app/src/main/java/com/example/stagtime/MainActivity.kt:179 | Kotlin's `a % 3600 == 0L` holds exactly when `a` is a multiple of 3600, whatever its sign |
| Schedule.IsPingIffSignedMultiple | app/src/main/java/com/example/stagtime/MainActivity.kt:168-179 | a second is a ping exactly when its wrapped 64-bit mix, read as a signed value, is divisible by 3600 |
| Schedule.RunFollowsTrace | app/src/main/java/com/example/stagtime/MainActivity.kt:170-177 | given the value of `x` after each statement of the mix, the mix after `n` statements is the `n`-th value |
| Schedule.KnownPingIsPing | app/src/main/java/com/example/stagtime/MainActivity.kt:168-179 | second 813 is a ping |
| Schedule.NextSecondIsNoPing | app/src/main/java/com/example/stagtime/MainActivity.kt:168-179 | second 814 is not a ping, so the predicate is not trivially true |
| Schedule.LowPingIsPing | app/src/main/java/com/example/stagtime/MainActivity.kt:168-179 | the second just below `Instant.MIN` named `LowPing` is a ping |
| Schedule.HighPingIsPing | app/src/main/java/com/example/stagtime/MainActivity.kt:168-179 | the second just above `Instant.MAX` named `HighPing` is a ping |
| Schedule.PingBelowInstants | app/src/main/java/com/example/stagtime/MainActivity.kt:184-187 | some ping lies below every `Instant`, so the downward scan ends |
| Schedule.PingAboveInstants | app/src/main/java/com/example/stagtime/MainActivity.kt:193-196 | some ping lies above every `Instant`, so the upward scan ends |
| Schedule.SignedReadingMatters | app/src/main/java/com/example/stagtime/MainActivity.kt:179 | for second 813 the unsigned reading of the mix is not a multiple of 3600 while the signed one is, so the signed reading decides |
| Schedule.PrevPingExists | app/src/main/java/com/example/stagtime/MainActivity.kt:184-187 | above any ping, every second has a nearest ping strictly before it |
| Schedule.NextPingExists | app/src/main/java/com/example/stagtime/MainActivity.kt:193-196 | below any ping, every second has a nearest ping strictly after it |
| Schedule.PrevPingUnique | app/src/main/java/com/example/stagtime/MainActivity.kt:184-187 | the nearest ping before a second is unique |
| Schedule.NextPingUnique | app/src/main/java/com/example/stagtime/MainActivity.kt:193-196 | the nearest ping after a second is unique |
| Schedule.LastPingBefore | app/src/main/java/com/example/stagtime/MainActivity.kt:182-188 | the second `lastBefore` finds is a ping strictly before `t`, with no ping strictly between them |
| Schedule.FirstPingAfter | app/src/main/java/com/example/stagtime/MainActivity.kt:191-198 | the second `firstAfter` finds is a ping strictly after `t`, with no ping strictly between them |
| Schedule.LastBefore | app/src/main/java/com/example/stagtime/MainActivity.kt:182-188 | the downward scan returns `Instant.ofEpochSecond` of the nearest ping before `t`'s second; it depends only on `t.epochSecond`, and the result is a whole second |
| Schedule.FirstAfter | app/src/main/java/com/example/stagtime/MainActivity.kt:191-198 | the upward scan returns `Instant.ofEpochSecond` of the nearest ping after `t`'s second; it depends only on `t.epochSecond`, and the result is a whole second |
| Schedule.LastBeforeThrows | app/src/main/java/com/example/stagtime/MainActivity.kt:188 | `lastBefore` throws exactly when no ping lies between `Instant.MIN` and `t` |
| Schedule.FirstAfterThrows | app/src/main/java/com/example/stagtime/MainActivity.kt:197 | `firstAfter` throws exactly when no ping lies between `t` and `Instant.MAX` |
| Schedule.FirstAfterLastBefore | app/src/main/java/com/example/stagtime/MainActivity.kt:182-198 | for a ping `s`, `firstAfter(lastBefore(s)) == s` |
| Schedule.LastBeforeFirstAfter | app/src/main/java/com/example/stagtime/MainActivity.kt:182-198 | for a ping `s`, `lastBefore(firstAfter(s)) == s` |
| Schedule.LastBeforeMonotone | app/src/main/java/com/example/stagtime/MainActivity.kt:182-188 | a later start never makes `lastBefore` find an earlier ping |
| Schedule.FirstAfterMonotone | app/src/main/java/com/example/stagtime/MainActivity.kt:191-198 | a later start never makes `firstAfter` find an earlier ping |
| NearbyPings.ConsecutiveAppend | app/src/main/java/com/example/stagtime/MainActivity.kt:50 | appending `lastBefore` of the last entry keeps the list consecutive |
| NearbyPings.ConsecutivePrepend | app/src/main/java/com/example/stagtime/MainActivity.kt:109-110 | putting `firstAfter` of the first entry in front keeps the list consecutive and its head a ping |
| NearbyPings.PingList.constructor | app/src/main/java/com/example/stagtime/MainActivity.kt:48 | `mutableListOf(first)` of a ping is a valid one-entry list |
| NearbyPings.PingList.AddEarlier | app/src/main/java/com/example/stagtime/MainActivity.kt:50 | `add(lastBefore(last()))` appends one entry and keeps the rest, or leaves the list as it was exactly when `lastBefore` throws; the list stays valid |
| NearbyPings.PingList.LoadEarlier | app/src/main/java/com/example/stagtime/MainActivity.kt:99-101 | "load more" appends five entries and keeps the rest; it appends fewer only when `lastBefore` of the last entry throws; the list stays valid |
| NearbyPings.PingList.Refresh | app/src/main/java/com/example/stagtime/MainActivity.kt:106-111 | refresh only puts entries in front, every new entry is before `now`, and on exit `firstAfter` of the head is not before `now` or throws; the list stays valid |
| NearbyPings.PingsBack | app/src/main/java/com/example/stagtime/MainActivity.kt:48-51 | the seconds that repeated `lastBefore` from `t` returns, until one is not an `Instant`: at most `n`, each a ping inside `Instant`'s range and before `t` |
| NearbyPings.ConsecutivePingsBack | app/src/main/java/com/example/stagtime/MainActivity.kt:48-51 | the entries after the head of a consecutive list are the first seconds of `PingsBack` from the head, and `PingsBack` stops there when `lastBefore` of the last entry throws |
| NearbyPings.OnCreate | app/src/main/java/com/example/stagtime/MainActivity.kt:48-51 | `onCreate` gives `DateTimeException` exactly when one of its six `lastBefore` calls throws; otherwise the list holds six valid entries, which are the six seconds of `PingsBack` from `now` |
| NearbyPings.ConsecutiveDescending | app/src/main/java/com/example/stagtime/MainActivity.kt:48-51 | a consecutive list is strictly decreasing |
| NearbyPings.ConsecutiveAllPings | app/src/main/java/com/example/stagtime/MainActivity.kt:48-51 | every entry of a list that starts at a ping is a ping |
| NearbyPings.ConsecutiveSkipsNone | app/src/main/java/com/example/stagtime/MainActivity.kt:99-101 | every ping between the oldest and the newest entry is in the list |
| KotlinText.IsWhitespace | app/src/main/java/com/example/stagtime/PingActivity.kt:100 | definition: `Char.isWhitespace`, written out as its code point ranges |
| KotlinText.IsBlank | app/src/main/java/com/example/stagtime/PingActivity.kt:100 | definition: `isBlank`, every character is whitespace |
| KotlinText.TrimStartIndex | app/src/main/java/com/example/stagtime/EditTagsActivity.kt:39 | `trim` starts at the first non-whitespace character, and everything before it is whitespace |
| KotlinText.TrimEndIndex | app/src/main/java/com/example/stagtime/EditTagsActivity.kt:39 | `trim` ends after the last non-whitespace character, and everything after it is whitespace |
| KotlinText.Trim | app/src/main/java/com/example/stagtime/EditTagsActivity.kt:39 | `trim` returns a slice of the string with a blank head and a blank tail cut off, and no whitespace at either end of the slice; nothing is left exactly for a blank string |
| KotlinText.TrimmedIsFixed | app/src/main/java/com/example/stagtime/EditTagsActivity.kt:39 | `trim` leaves a string with no whitespace at either end as it is |
| KotlinText.TrimIdempotent | app/src/main/java/com/example/stagtime/EditTagsActivity.kt:39 | trimming twice is trimming once |
| KotlinText.TrimAfterBlank | app/src/main/java/com/example/stagtime/EditTagsActivity.kt:39 | whitespace in front of a trimmed non-empty string is exactly what `trim` removes |
| KotlinText.TrimKeepsOut | app/src/main/java/com/example/stagtime/EditTagsActivity.kt:39 | `trim` adds no character, so a trimmed piece has no comma |
| KotlinText.Split | app/src/main/java/com/example/stagtime/EditTagsActivity.kt:39 | `split(",")` gives at least one piece, and no piece holds the delimiter |
| KotlinText.Join | app/src/main/java/com/example/stagtime/EditTagsActivity.kt:46 | definition: `joinToString(sep)`, the pieces with `sep` between neighbours (see `JoinAppend`, `JoinSplit`, `SplitJoin`) |
| KotlinText.JoinAppend | app/src/main/java/com/example/stagtime/EditTagsActivity.kt:46 | joining two non-empty lists one after the other is joining each with `sep` between the two results |
| KotlinText.JoinSplit | app/src/main/java/com/example/stagtime/EditTagsActivity.kt:39 | joining the pieces of a split with the delimiter gives back the text |
| KotlinText.SplitWithout | app/src/main/java/com/example/stagtime/EditTagsActivity.kt:39 | a text without the delimiter is one piece |
| KotlinText.SplitPrepend | app/src/main/java/com/example/stagtime/EditTagsActivity.kt:39 | text without the delimiter in front only lengthens the first piece |
| KotlinText.SplitJoin | app/src/main/java/com/example/stagtime/EditTagsActivity.kt:46 | splitting pieces joined by `d + w` at `d` gives them back with `w` in front of all but the first |
| StringOrder.Less | app/src/main/java/com/example/stagtime/EditTagsActivity.kt:46 | definition: `String.compareTo` order, where the first differing character decides and a proper prefix comes first |
| StringOrder.LessIrreflexive | app/src/main/java/com/example/stagtime/EditTagsActivity.kt:46 | no string sorts before itself |
| StringOrder.LessTransitive | app/src/main/java/com/example/stagtime/EditTagsActivity.kt:46 | `String` order is transitive |
| StringOrder.LessTotal | app/src/main/java/com/example/stagtime/EditTagsActivity.kt:46 | any two different strings are ordered |
| StringOrder.LeastAfterInsert | app/src/main/java/com/example/stagtime/EditTagsActivity.kt:46 | adding an element keeps the old least element or makes the new one least |
| StringOrder.LeastExists | app/src/main/java/com/example/stagtime/EditTagsActivity.kt:46 | a non-empty tag set has a least tag |
| StringOrder.Sorted | app/src/main/java/com/example/stagtime/EditTagsActivity.kt:46 | `sorted()` of a set lists exactly its elements, each once, in strictly increasing order |
| StringOrder.SortedUnique | app/src/main/java/com/example/stagtime/EditTagsActivity.kt:46 | only one strictly increasing list holds exactly a given set, so `sorted()` is determined |
| TagText.TrimEach | app/src/main/java/com/example/stagtime/EditTagsActivity.kt:39 | `map { it.trim() }` keeps the number of pieces and trims each one |
| TagText.NonBlank | app/src/main/java/com/example/stagtime/PingActivity.kt:100 | `filter { it.isNotBlank() }` keeps exactly the non-blank pieces and no more than there were |
| TagText.NonBlankOfBlanks | app/src/main/java/com/example/stagtime/PingActivity.kt:100 | `filter` keeps nothing of pieces that are all blank |
| TagText.NonBlankOne | app/src/main/java/com/example/stagtime/PingActivity.kt:100 | `filter` keeps one piece exactly when it is not blank |
| TagText.NonBlankAppend | app/src/main/java/com/example/stagtime/PingActivity.kt:100 | `filter` of `a + b` is `filter` of `a` followed by `filter` of `b`, so it keeps the order of the pieces and their repeats |
| TagText.Pieces | app/src/main/java/com/example/stagtime/EditTagsActivity.kt:39 | definition: `split(",").map { it.trim() }` (see `PiecesTrimmed`) |
| TagText.PiecesTrimmed | app/src/main/java/com/example/stagtime/EditTagsActivity.kt:39 | every trimmed piece is trimmed and holds no comma |
| TagText.TrimmedNotEmptyIffNotBlank | app/src/main/java/com/example/stagtime/EditTagsActivity.kt:39 | after `trim`, `isNotEmpty` and `isNotBlank` agree |
| TagText.NonBlankPiecesClean | app/src/main/java/com/example/stagtime/PingActivity.kt:100 | the non-blank trimmed pieces are clean tags |
| TagText.NewTags | app/src/main/java/com/example/stagtime/PingActivity.kt:100 | every tag typed in the new-tag field is non-empty, trimmed and comma-free |
| TagText.Queries | app/src/main/java/com/example/stagtime/PingActivity.kt:119-120 | every search query is non-empty, trimmed and comma-free |
| TagText.ParseTagList | app/src/main/java/com/example/stagtime/EditTagsActivity.kt:39 | every tag the editor saves is non-empty, trimmed and comma-free |
| TagText.ParseAgreesWithQueries | app/src/main/java/com/example/stagtime/EditTagsActivity.kt:39 | the editor's `isNotEmpty` parse and the ping screen's `isNotBlank` parse give the same set |
| TagText.SplitPiecesInText | app/src/main/java/com/example/stagtime/EditTagsActivity.kt:39 | a text of whitespace and commas splits into blank pieces |
| TagText.BlankTextPiecesEmpty | app/src/main/java/com/example/stagtime/EditTagsActivity.kt:39 | a text of whitespace and commas trims to empty pieces |
| TagText.BlankTextHasNoTags | app/src/main/java/com/example/stagtime/EditTagsActivity.kt:39 | a text of whitespace and commas gives no tags to either parser |
| TagText.Render | app/src/main/java/com/example/stagtime/EditTagsActivity.kt:45-46 | definition: `loadUserInput`, the tags in `String` order joined by ", " (see `RenderThenParse`) |
| TagText.RenderPieces | app/src/main/java/com/example/stagtime/EditTagsActivity.kt:46 | the rendered text cut at commas is the sorted tags, each but the first with the space of ", " in front |
| TagText.TrimSpacedTag | app/src/main/java/com/example/stagtime/EditTagsActivity.kt:39 | the space that ", " leaves in front of a clean tag is trimmed away |
| TagText.RenderedPiecesTrimToTags | app/src/main/java/com/example/stagtime/EditTagsActivity.kt:39 | the trimmed pieces of the rendered text are the sorted tags |
| TagText.RenderThenParse | app/src/main/java/com/example/stagtime/EditTagsActivity.kt:39-46 | saving the text the editor displays for a clean tag set gives back the same set |
| TagText.ParseIdempotent | app/src/main/java/com/example/stagtime/EditTagsActivity.kt:39-46 | parse, render, parse is the same as parse |
| PingScreen.PingInfo.constructor | app/src/main/java/com/example/stagtime/PingActivity.kt:17-20 | `PingInfo()` has empty notes and no tags |
| PingScreen.Toggled | app/src/main/java/com/example/stagtime/PingActivity.kt:153-158 | toggling flips membership of the tag and keeps every other tag's membership |
| PingScreen.ToggleTwice | app/src/main/java/com/example/stagtime/PingActivity.kt:153-158 | toggling the same tag twice restores the tags |
| PingScreen.MatchesSome | app/src/main/java/com/example/stagtime/PingActivity.kt:123 | definition: `queries.any { tag.lowercase().startsWith(it.lowercase()) }` |
| PingScreen.SearchResults | app/src/main/java/com/example/stagtime/PingActivity.kt:121-124 | results lie within the known tags and the ping's tags, and there are none without queries |
| PingScreen.SearchFindsTypedTag | app/src/main/java/com/example/stagtime/PingActivity.kt:121-124 | a tag typed in full as a query, in any case, is found |
| PingScreen.SearchGrowsWithQueries | app/src/main/java/com/example/stagtime/PingActivity.kt:121-124 | more queries never lose a result |
| PingScreen.BlankFieldFindsNothing | app/src/main/java/com/example/stagtime/PingActivity.kt:119-124 | a field of whitespace and commas finds nothing |
| PingScreen.PingScreen.constructor | app/src/main/java/com/example/stagtime/PingActivity.kt:64 | the screen uses the stored info, or a fresh `PingInfo()` when nothing is stored |
| PingScreen.PingScreen.AddTags | app/src/main/java/com/example/stagtime/PingActivity.kt:100-105 | the ping's tags become the old tags plus the typed tags, none is removed, each added tag is clean, and the field is cleared |
| PingScreen.PingScreen.ToggleTag | app/src/main/java/com/example/stagtime/PingActivity.kt:153-158 | the ping's tags become the toggled set; the notes are unchanged |
| PingScreen.PingScreen.Search | app/src/main/java/com/example/stagtime/PingActivity.kt:119-124 | the results for the field's queries lie within the known tags and the ping's tags |
| PingScreen.PingScreen.PrevSecond | app/src/main/java/com/example/stagtime/PingActivity.kt:78 | the previous button leads to the nearest ping before this one, and from a ping the next button there leads back |
| PingScreen.PingScreen.NextSecond | app/src/main/java/com/example/stagtime/PingActivity.kt:89 | the next button leads to the nearest ping after this one, and from a ping the previous button there leads back |
| PingScreen.PingScreen.NextEnabled | app/src/main/java/com/example/stagtime/PingActivity.kt:84-86 | the next button stays enabled exactly when some ping after this one is not after `now` |

## Left out

- I/O is outside the model:
  - `SharedPreferences` storage and Gson (`loadPingDataForTime`, `savePingDataForTime`, `loadAllPingData`, `getTags`, the write in `saveUserInput`, `savePingInfo`);
  - the JSON export;
  - alarm scheduling, notifications and the boot receiver;
  - `formatInstant`, and all view code (buttons, colours, list adapters).
- The stored tag set is the plain parameter `known` of the search. `redraw` calls `.keys` on the `Set<String>` that `getTags` returns, and `getTags` is not part of this model. `ensureTagExists` (PingActivity.kt:102) is not part of this model either.
- `Instant.now()` is a parameter. `NearbyPings.PingList.Refresh` reads it once per refresh, while the app reads the clock again on each test of the loop.
- A `DateTimeException` would end the app. The model instead returns `DateTimeException` and stops where the exception leaves the state.
- The ping screen receives its ping second through an intent extra and converts it with `Instant.ofEpochSecond`. The model's `PingScreen.PingScreen` takes the `Instant` directly.
- `lowercase` is a parameter of the search. Kotlin's Unicode case mapping is not modelled, so the search is proved for any lower-casing function.
- Characters are Unicode scalar values, whereas Kotlin's `Char` is a UTF-16 code unit:
  - whitespace is only ever a character of the Basic Multilingual Plane, so `trim` is unaffected;
  - `String` order here compares code points, which differs from UTF-16 order only for strings that mix supplementary characters with characters from U+E000 to U+FFFF.
- `TagText.Render` and `StringOrder.Sorted` are ghost: the model chooses the least tag rather than running a sort.
- The `WeakPRNG` generator and the day-by-day Poisson schedule that `WeakPRNGTest.kt` exercises are outside the model, because `object Schedule` does not use them.
