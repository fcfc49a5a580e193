# novaro-tracker in Dafny

novaro-tracker watches the vending listings of the NovaRO game market for
the items its Discord users track. It alerts a user by direct message when
the cheapest listing of an item is below the price the user asked for. This
project models the tracker's core and proves properties of that model:

- `utils.dfy` (module `Utils`) covers the string helpers:
  - `sanitizePrice` is `SanitizePrice`. It keeps digits and dots, then JavaScript `parseInt` reads the leading digits. NaN becomes `None`.
  - `formatPrice` is `FormatPrice`, which puts thousands separators into the decimal form.
  - `extractMapPosition` is `ExtractMapPosition`, which builds a `@shopjump` or `@navi` game command from a listing location. A missing comma field prints as `undefined`, as it does in JavaScript.
  - `listTrackedItems` is the loop method `ListTrackedItems`, specified by the function `Listing`: the header followed by the line of each item.
- `database.dfy` (module `Database`) covers `BDService`. It is a class whose field `table` is the "tracked" collection, a sequence of `Tracking` records in stored order. Each query acts on the first record whose `(uuid, id)` matches, as MongoDB's `findOne`, `updateOne` and `deleteOne` do.
- `discord.dfy` (module `Discord`) covers the bot. Discord is an outbox, the sequence of messages the bot has sent.
  - The class `Bot` shares one `BDService` with the polling loop.
  - `SendAlert` is the deduplicated alert.
  - `OnCommand` handles the `track`, `untrack` and `tracked` slash commands.
  - `CreateEmbed` builds the three fields of the alert.
  - Each method is specified by a function on the state: `AlertEffect` and `CommandEffect`.
- `polling.dfy` (module `Polling`) covers one run of the scraper's `main`. `MainCycle` loops over the records read at the start. For each record, `HandleItem`:
  - writes the item name when the record has none;
  - skips an empty listing table;
  - finds the "Price" and "Location" columns in the header row;
  - asks for an alert when the parsed price is strictly below the wanted price.

  The methods are specified by `ItemStep`, `RunItems` and `Cycle`. The scraped page is an input to the step: its title, plus its table as rows of tab-separated cells.
- `records.dfy` holds the `ITracking` record. `wrappers.dfy` holds `Option`.

Two behaviours of the code are modelled as written:

- The alert fires only when the price is strictly below the threshold (src/index.ts:54). The confirmation text of `track` and the description of its `price` option promise "lower or equal". `EqualPriceDoesNotAlert` proves that an equal price sends nothing.
- A header-only table, or a header without a "Price" or "Location" cell, makes `main` read a missing cell. That raises a TypeError, which ends the cycle. The model returns `Aborted` with the state reached so far, and the later records are not handled (`AbortPersists`).

## Model

| member | source | states |
|---|---|---|
| Utils.IntToString | src/utils.ts:10 | The body is the model: `n.toString()`, a minus sign for a negative number and then the digits of its magnitude. The same text is `${n}` at src/utils.ts:32 and src/bot.ts:94, 107 and 183. Specified by NatToString and NatToStringValue, and used as the independent reference of FormatPriceRemoveCommas. |
| Utils.NatToStringValue | src/utils.ts:10 | The decimal form of a natural number reads back as that number. |
| Utils.NatToString | src/utils.ts:10 | The decimal form is a non-empty digit string without a leading zero. |
| Utils.StripNonPrice | src/utils.ts:6 | The filtered text contains only digits and dots, and is no longer than its input. |
| Utils.StripNonPriceKeeps | src/utils.ts:6 | The filtered text contains exactly the digits and dots that occur in the input, and text made only of those is kept whole. |
| Utils.LeadingDigits | src/utils.ts:6 | What `parseInt` reads is the longest all-digit prefix: it is a prefix, all digits, and it is followed by a non-digit or by the end. |
| Utils.ParseLeadingInt | src/utils.ts:6 | The body is the model: `parseInt` on the filtered text is the value of its leading digits, or NaN (`None`) when there are none. Specified by LeadingDigits and by the SanitizePrice lemmas. |
| Utils.SanitizePrice | src/utils.ts:5-7 | The body is the model; specified by StripNonPriceKeeps, SanitizePriceUndefined, SanitizePriceStopsAtDot, SanitizePriceWithoutDot and FormatSanitizeRoundTrip. |
| Utils.SanitizePriceUndefined | src/utils.ts:6 | The price is NaN (`None`) exactly when the filtered text is empty or starts with a dot. |
| Utils.SanitizePriceStopsAtDot | src/utils.ts:6 | A dot ends the number: digits followed by "." and anything else give the value of those digits. |
| Utils.SanitizePriceWithoutDot | src/utils.ts:5-7 | Without a dot, the price is the value of all its digits read in order, and NaN when it has none. |
| Utils.SanitizePriceIgnoresNoise | src/utils.ts:6 | "1,234z" gives 1234. |
| Utils.SanitizePriceDotExample | src/utils.ts:6 | "1.500" gives 1. |
| Utils.Commafy | src/utils.ts:10 | The body is the model: the regular-expression replace puts a comma before every position after the first from which a multiple of three digits remains. Specified by CommafyPlain, CommafySplit, CommafyRemoveCommas and CommafyStripNonPrice. |
| Utils.FormatDigits | src/utils.ts:10 | The body is the model: the replace applied to a whole digit string. Specified by FormatDigitsShort, FormatDigitsAppend and FormatDigitsShape. |
| Utils.FormatPrice | src/utils.ts:9-11 | The body is the model; specified by FormatPriceSmall, FormatDigitsShape, FormatPriceRemoveCommas and FormatSanitizeRoundTrip. |
| Utils.FormatDigitsShort | src/utils.ts:10 | A digit string of at most three digits gets no separator. |
| Utils.FormatDigitsAppend | src/utils.ts:10 | Appending three digits to the number appends a comma and those three digits to the formatted text. |
| Utils.FormatPriceRemoveCommas | src/utils.ts:9-11 | Removing every comma from `formatPrice(n)` gives `n.toString()`, for every integer. |
| Utils.FormatDigitsShape | src/utils.ts:10 | A comma sits exactly at each non-first position a multiple of four characters from the end. Every other character is a digit. The length grows by one per full group of three. So the first group has 1-3 digits and every later group exactly 3. |
| Utils.FormatPriceSmall | src/utils.ts:10 | Numbers strictly between -1000 and 1000 are printed unchanged. |
| Utils.FormatSanitizeRoundTrip | src/utils.ts:5-11 | For every natural `n`, reading the alert text `formatPrice(n) + "z"` back through `sanitizePrice` gives `n`. |
| Utils.FormatPriceSmallExample | src/utils.ts:10 | 42 gives "42". |
| Utils.FormatPriceMillionExample | src/utils.ts:10 | 1234567 gives "1,234,567". |
| Utils.IndexOf | src/utils.ts:21 | `indexOf` is above -1 exactly when the pattern occurs, and then it is the first occurrence. |
| Utils.Split | src/utils.ts:22 | `split` gives at least one field, and no field contains the separator. |
| Utils.JoinSplit | src/utils.ts:22 | Joining the fields of `split` with the separator gives back the text. |
| Utils.SplitJoin | src/utils.ts:22 | Splitting joined fields that lack the separator gives back the fields. |
| Utils.FieldText | src/utils.ts:22-23 | The body is the model: a destructured field that the split did not produce prints as "undefined". Specified as part of ShopJumpUsesSecondAndThirdField. |
| Utils.ExtractMapPosition | src/utils.ts:19-27 | The body is the model; specified by ShopJumpUsesSecondAndThirdField and NaviKeepsRemainder, with ShopJumpExample and NaviExample worked through. |
| Utils.ShopJumpUsesSecondAndThirdField | src/utils.ts:19-23 | After the first character, a vending-area location gives "@shopjump " + second field + " " + third field. Any later fields are ignored. |
| Utils.NaviKeepsRemainder | src/utils.ts:19-26 | Any other location gives "@navi " followed by everything after the first character, verbatim. |
| Utils.NaviExample | src/utils.ts:19-26 | "#prontera,50,60" gives "@navi prontera,50,60". |
| Utils.ShopJumpExample | src/utils.ts:19-23 | "#nova_vend,100,200" gives "@shopjump 100 200". |
| Utils.ItemLine | src/utils.ts:32 | The body is the model; specified by ItemLineHasOneNewline. |
| Utils.Listing | src/utils.ts:29-35 | The body is the model; the header followed by `Lines`, the item lines in order; specified by ListTrackedItems, LinesAppend, ListingLineCount and ListingHasHeaderAndOneLinePerItem. |
| Utils.ListTrackedItems | src/utils.ts:29-35 | The loop's message is `Listing(items)`: the header, then one line per item in input order. |
| Utils.ListingSnoc | src/utils.ts:31-33 | Each pass of the `forEach` appends that item's line to the message built so far. |
| Utils.LinesAppend | src/utils.ts:31-33 | The item lines of two lists in sequence are the lines of the first, then the lines of the second. |
| Utils.ItemLineHasOneNewline | src/utils.ts:32 | An item line whose name has no newline holds exactly one newline. |
| Utils.ListingLineCount | src/utils.ts:31-33 | When no item name holds a newline, the item lines hold exactly one newline per item. |
| Utils.ListingHasHeaderAndOneLinePerItem | src/utils.ts:29-35 | When no item name holds a newline, the whole listing has one line for the header plus one per item. |
| Database.FindIndex | src/bd.ts:44-47 | The lookup finds the first record with the `(uuid, id)` pair, and finds nothing exactly when no record has it. |
| Database.BDService.ObtainTrackedItems | src/bd.ts:28-32 | Returns every record, in stored order. |
| Database.BDService.InsertTrackedItem | src/bd.ts:39-54 | The new table is the upsert of the item. The result is "updated" exactly when the key already existed. |
| Database.BDService.UpdateTrackedWithNotification | src/bd.ts:61-79 | Writes the `(price, mapCoords)` snapshot on the matching record. Reports whether a record matched. |
| Database.BDService.UpdateTrackedItemName | src/bd.ts:86-90 | Sets the name on the matching record and returns true. |
| Database.BDService.CheckIfAlertWasSent | src/bd.ts:97-109 | The answer is the stored-snapshot test. A true answer means a record with the key holds exactly this price and location. |
| Database.BDService.DeleteTrackedItem | src/bd.ts:116-120 | Removes the first matching record. Returns true even when nothing matched. |
| Database.BDService.GetTrackedItems | src/bd.ts:127-130 | Returns the user's records in stored order. |
| Database.Upsert | src/bd.ts:44-54 | The body is the model; specified by UpsertExisting, UpsertAbsent, UpsertKeepsKeysUnique and TrackTwice. |
| Database.UpsertExisting | src/bd.ts:44-53 | On an existing key only `wantedPrice` changes. The name, the snapshot, the key, the count and every other record stay as they were. |
| Database.UpsertAbsent | src/bd.ts:44-54 | On an absent key the given record is appended. |
| Database.UpsertKeepsKeysUnique | src/bd.ts:44-54 | Unique keys stay unique. Afterwards a record with the key exists, and every record with it holds the new `wantedPrice`. |
| Database.TrackTwice | src/bd.ts:44-54 | Tracking the same key twice leaves exactly one record for it, with the second price. Its name and snapshot are as the first call left them. |
| Database.SetNotification | src/bd.ts:69-79 | The body is the model; specified by SetNotificationFrame, SetNotificationKeepsKeysUnique and NotifiedThenAlertWasSent. |
| Database.SetNotificationFrame | src/bd.ts:69-79 | Only the matching record's snapshot changes. With no match, nothing is created. |
| Database.SetNotificationKeepsKeysUnique | src/bd.ts:69-79 | The snapshot write keeps unique keys unique. |
| Database.AlertWasSent | src/bd.ts:100-109 | The body is the model; specified by AlertWasSentExactly and NotifiedThenAlertWasSent. |
| Database.NotifiedThenAlertWasSent | src/bd.ts:69-107 | Right after the snapshot write on an existing record, the check for the same price and location answers true. |
| Database.AlertWasSentExactly | src/bd.ts:100-109 | Under unique keys, the check answers true exactly when a record with the key holds the same price and location. With no record it answers false. |
| Database.SetItemName | src/bd.ts:89 | The body is the model; specified by SetItemNameFrame and SetItemNameKeepsKeysUnique. |
| Database.SetItemNameFrame | src/bd.ts:89 | The name write sets the name on the matching record and changes nothing else. |
| Database.SetItemNameKeepsKeysUnique | src/bd.ts:89 | The name write keeps unique keys unique. |
| Database.DeleteOne | src/bd.ts:119 | The body is the model; specified by DeleteOneRemovesKey, against the independent filter WithoutKey, and DeleteOneLeavesNoMatch. |
| Database.DeleteOneRemovesKey | src/bd.ts:119 | Under unique keys, deleting a pair leaves every other record, in order. |
| Database.RemoveAtKeepsKeysUnique | src/bd.ts:119 | Removing any one record keeps unique keys unique. |
| Database.DeleteOneLeavesNoMatch | src/bd.ts:119 | Under unique keys, no record with the pair remains, and keys stay unique. |
| Database.ForUser | src/bd.ts:130 | The body is the model; specified by ForUserExactly and ForUserAppend. |
| Database.ForUserExactly | src/bd.ts:130 | The user query returns every record of that user and nothing else. |
| Database.ForUserAppend | src/bd.ts:130 | The user query keeps stored order: it distributes over concatenation. |
| Discord.CreateEmbed | src/bot.ts:151-186 | The body is the model; specified by AlertDelivered and AlertPriceReadsBack. |
| Discord.AlertEffect | src/bot.ts:127-149 | The body is the model; specified by AlertSuppressed, AlertDelivered, AlertLeavesSnapshot, AlertIdempotent, AlertOnChange, AlertWithoutRecord and AlertKeepsKeysUnique, and implemented by Bot.SendAlert. |
| Discord.NewTracking | src/bot.ts:82-90 | The body is the model; specified as part of TrackStoresThreshold. |
| Discord.TrackReplyText | src/bot.ts:93-97 | The body is the model; specified as part of TrackStoresThreshold. |
| Discord.UntrackReplyText | src/bot.ts:106-109 | The body is the model; specified as part of UntrackRemovesOnlyThatRecord. |
| Discord.TrackedEmbed | src/bot.ts:115-121 | The body is the model; specified as part of TrackedListsOnlyCaller. |
| Discord.CommandEffect | src/bot.ts:76-123 | A non-command interaction or an unknown command changes nothing. Any command appends at most one reply after the earlier messages. |
| Discord.Bot.OnCommand | src/bot.ts:75-124 | The store and the outbox afterwards are `CommandEffect` of the state before. |
| Discord.Bot.SendAlert | src/bot.ts:127-149 | The store and the outbox afterwards are `AlertEffect` of the state before. |
| Discord.AlertSuppressed | src/bot.ts:134-135 | When the same alert was already recorded, nothing is sent and the store does not change. |
| Discord.AlertDelivered | src/bot.ts:136-148 | Otherwise exactly one direct message goes to the user. It carries the item name, "formatPrice(price)z", the location verbatim and "@ws id". The snapshot is then recorded. |
| Discord.AlertPriceReadsBack | src/bot.ts:139-173 | The price field of the alert reads back through `sanitizePrice` as the alerted price. |
| Discord.AlertLeavesSnapshot | src/bot.ts:134-148 | For an existing record, after the call (sent or suppressed), the record holds this price and location as its snapshot. |
| Discord.AlertIdempotent | src/bot.ts:134-148 | For an existing record, two calls with the same price and location send at most one message. The second call changes nothing. |
| Discord.AlertOnChange | src/bot.ts:134-148 | After an alert, a call with a different price or location sends exactly one new message to the user. |
| Discord.AlertWithoutRecord | src/bot.ts:134-148 | With no matching record, every call sends a message and the store stays as it was. |
| Discord.CommandsTouchOnlyCaller | src/bot.ts:81-119 | No command changes the records of any user but the caller. |
| Discord.TrackStoresThreshold | src/bot.ts:81-98 | `track` leaves exactly one record for the caller's `(uuid, id)`, with the asked price. An existing record keeps its name and snapshot, and a new one has neither. Keys stay unique. The reply is the confirmation text. |
| Discord.UntrackRemovesOnlyThatRecord | src/bot.ts:101-110 | `untrack` removes the caller's record for the id, keeps every other record in order, and replies. |
| Discord.TrackedListsOnlyCaller | src/bot.ts:111-122 | `tracked` changes no record. It replies to the caller with the header and one line per record of the caller, in stored order, and those records are exactly the caller's. |
| Discord.AlertKeepsKeysUnique | src/bot.ts:127-149 | An alert, whether sent or suppressed, keeps unique keys unique. |
| Discord.CommandKeepsKeysUnique | src/bot.ts:75-124 | Every interaction keeps unique keys unique: `track`, `untrack`, `tracked` and anything else. |
| Polling.TrimEnd | src/index.ts:41 | The result is the longest prefix not ending in JavaScript white space. Everything removed is white space. |
| Polling.IndexOfElem | src/index.ts:48-49 | The header lookup gives the first column holding the text, or -1 exactly when no column does. |
| Polling.TitleItemName | src/index.ts:41 | The body is the model; specified by TitleNameBeforeSeparator, TitleNameWithoutSeparator and TitleNameExample. |
| Polling.PriceColumn | src/index.ts:48 | The body is the model: `result[0].indexOf("Price")`. Specified by the contract of IndexOfElem. |
| Polling.LocationColumn | src/index.ts:49 | The body is the model: `result[0].indexOf("Location")`. Specified by the contract of IndexOfElem. |
| Polling.Readable | src/index.ts:46-51 | The body is the model; specified by AbortsExactlyWhenUnreadable. |
| Polling.ListedPrice | src/index.ts:48-50 | The body is the model; specified by AlertWhenBelowThreshold and AlertOnlyBelowThreshold. |
| Polling.ListedLocation | src/index.ts:49-51 | The body is the model; specified by AlertWhenBelowThreshold. |
| Polling.Alerts | src/index.ts:54 | The body is the model; specified by AlertOnlyBelowThreshold, EqualPriceDoesNotAlert and AlertWhenBelowThreshold. |
| Polling.NameWrite | src/index.ts:41-44 | The body is the model; specified by NameWrittenOnlyWhenMissing and NameWriteKeepsLookups. |
| Polling.ItemStep | src/index.ts:41-56 | The body is the model; specified by the per-item lemmas below, StepKeepsKeysUnique and StepAppendsAlertTo, and implemented by HandleItem. |
| Polling.RunItems | src/index.ts:23-57 | The body is the model; specified by AbortPersists and RunItemsKeepsKeysUnique. |
| Polling.Cycle | src/index.ts:18-57 | The body is the model; specified by EmptyStoreDoesNothing, CycleAlertsOnlyTrackedUsers, SecondCycleOnSamePageIsQuiet, NewListingAlertsInLaterCycle and CycleKeepsKeysUnique, and implemented by MainCycle. |
| Polling.MainCycle | src/index.ts:18-57 | The store and the outbox afterwards are the state `Cycle` reaches over the records read at the start. The result says whether the loop ran to the end. |
| Polling.HandleItem | src/index.ts:41-56 | The store and the outbox afterwards are those of `ItemStep`. The result is false exactly when the step reads a missing cell. |
| Polling.AbortPersists | src/index.ts:23-57 | Once a step is cut short, the later records are not handled and the state stays. |
| Polling.TitleNameBeforeSeparator | src/index.ts:41 | The item name is the title text before the first " - ", with trailing white space trimmed. |
| Polling.TitleNameWithoutSeparator | src/index.ts:41 | A title without " - " is taken whole, with trailing white space trimmed. |
| Polling.TitleNameExample | src/index.ts:41 | "Jellopy - NovaRO" gives "Jellopy". |
| Polling.NameWrittenOnlyWhenMissing | src/index.ts:41-46 | The name is written on the found record exactly when the loaded record has none, even when the table is empty. No other name changes. |
| Polling.EmptyTableNoAlert | src/index.ts:46 | An empty listing table sends nothing and does not end the cycle. |
| Polling.AbortsExactlyWhenUnreadable | src/index.ts:46-51 | A step is cut short exactly when a non-empty table lacks row 1 or a cell under "Price" or "Location". |
| Polling.AlertOnlyBelowThreshold | src/index.ts:48-56 | A step sends at most one message, appended after the others. It sends one only when the listed price parses and is strictly below the wanted price, and it goes as a direct message to the record's user. |
| Polling.EqualPriceDoesNotAlert | src/index.ts:54 | A listed price equal to the wanted price sends nothing. |
| Polling.AlertWhenBelowThreshold | src/index.ts:48-56 | Below the threshold and not yet notified, one direct message goes to the user. Its price field reads back as the listed price, and it carries the extracted location. |
| Polling.RepeatedPageIsQuiet | src/index.ts:41-56 | Handling the record as the step left it, with the same page, changes nothing. |
| Polling.NewListingAlertsAgain | src/index.ts:48-56 | After an alerting page, a page with another price or location still below the threshold alerts again. |
| Polling.EmptyStoreDoesNothing | src/index.ts:18-21 | With no records, a cycle changes nothing. |
| Polling.CycleAlertsOnlyTrackedUsers | src/index.ts:23-57 | A cycle only appends to the outbox. Everything it appends is a direct message to the user of one of the records read at the start of the cycle. |
| Polling.SecondCycleOnSamePageIsQuiet | src/index.ts:18-57 | For one tracked item with no snapshot yet, listed below its threshold, the first cycle sends one alert. A second cycle on the same page sends nothing and changes nothing. |
| Polling.NewListingAlertsInLaterCycle | src/index.ts:18-57 | In the same scenario, a third cycle whose page lists another price or location, still below the threshold, sends exactly one more direct message, to the record's user. |
| Polling.StepKeepsKeysUnique | src/index.ts:41-56 | Handling one record keeps unique keys unique. |
| Polling.RunItemsKeepsKeysUnique | src/index.ts:41-57 | The loop over any records keeps unique keys unique, whether it runs to the end or stops early. |
| Polling.CycleKeepsKeysUnique | src/index.ts:18-57 | A whole cycle keeps unique keys unique. |

## Left out

- The MongoDB connection, client options and environment variables (src/bd.ts:12-26) are left out: the collection is the `table` field. The two `BDService` instances of src/bot.ts:7 and src/index.ts:9 reach one database, so the model has one shared store.
- The `try`/`catch` branches that log a database error and return `[]`, `null` or `false` are left out, because they depend on external failures. So every store call succeeds and every `if (bdResponse)` holds: even an empty result array is truthy, so each known command replies.
- Discord is not modelled: login, gateway intents and the registration of the slash commands (src/bot.ts:12-73) are left out, and so is the user lookup before a direct message. The embed's colour, URLs, icon, thumbnail and `inline` flags are left out too. The message records the recipient, and for embeds the author, title, description and the three fields.
- The command options are taken as integers. The gateway requires `id` and `price` for the commands that declare them, so the `undefined` case is not modelled. Neither is the record's MongoDB `_id`.
- The browser is not modelled: Puppeteer launch, navigation, the one-second delay in the page and the reading of the DOM table (src/index.ts:12-39) are left out. So is `browser.close()`, which the early return at src/index.ts:21 skips. The page title and table rows are inputs, chosen by the item's position in the loop.
- The five-minute `node-cron` schedule (src/index.ts:62) and overlapping cycles are concurrency, which the model does not capture.
- Commands running at the same time as each other are left out. The `interactionCreate` handler (src/bot.ts:76) is `async`, so two interactions can interleave at their awaits, but `Bot.OnCommand` and `CommandEffect` run each command to completion. `insertTrackedItem` looks the key up with `findOne` (src/bd.ts:44) and adds the record with `insertOne` (src/bd.ts:54), in two separate awaits, and the source creates no unique index. So two quick `track` commands for the same `(uuid, id)` can both find nothing and both insert, leaving two records for one pair. A later `untrack` (`deleteOne`, src/bd.ts:119) then removes only one of them, and alerts keep coming. `UniqueKeys` and the lemmas that assume it hold only when each command runs to completion.
- The `sendAlert` call at src/index.ts:55 is not awaited. The model runs it to completion before the next record, so the interleavings are left out.
- Commands that run in the middle of a cycle are left out. `main` awaits the browser and the store between records (src/index.ts:25, 27-39, 41, 43), so the `interactionCreate` handler (src/bot.ts:76) can run between two steps. `Cycle` allows no command between steps and takes each step on the record as read at the start. Two consequences are therefore not captured:
  - After an `untrack` in the middle of a cycle, the old record is still compared and `sendAlert` runs. The check at src/bd.ts:102 then finds no record and answers false, so a message goes to a user who has just untracked the item.
  - After a re-`track`, the step compares against the old `wantedPrice`.
- Strings are sequences of Unicode scalar values, while JavaScript strings are UTF-16 code units. If a location's first character lies outside the Basic Multilingual Plane, `substring(1)` (src/utils.ts:20) leaves a lone low surrogate, but `ExtractMapPosition` drops the whole character. Lengths and indices of such text differ in the same way.
- `downloadItemImage` (src/utils.ts:13-17) is file-system I/O, and the `console` logging is output. Both are left out.
- Utils.FormatSanitizeRoundTrip: stated over unbounded naturals. JavaScript numbers round above 2^53 and print in exponent notation from 10^21, which the model does not capture. The same holds for `SanitizePrice` and `FormatPrice` on such values.
- Discord.Bot.SendAlert: the message is sent and the snapshot written in one call. A failure between the two, such as the message going out but the write failing, is not modelled.

