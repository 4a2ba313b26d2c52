# anime-spotlight: the anime entry form, modelled in Dafny

This project models the create/edit form of the anime-spotlight catalogue. It covers:

- **The validation schema.** A status-dependent Joi schema that checks the twelve fields of an entry. The model states the schema as rule functions, and proves that they accept a draft exactly when the draft meets a declarative, per-field entry invariant.
- **`mapJoiErrorToErrors`.** This turns Joi's list of violations into the error map shown beside the inputs: one message per key, with the `categories` messages grouped under `general` and under each item's index.
- **The form session.** The draft, the error map, the start date last seen by the end-date re-sync, the unknown-error flag and the drafts handed to the submit callback. It is modelled as the class `AnimeFormSession.AnimeForm`, with one method per event handler.
- **The older revision of the form.** This is `LegacyForm.LegacyAnimeForm`, with its looser schema. It records one message per key, validates nothing on change, and its submit trims some texts and always hands the draft over.
- **The display formatters and the list reducer.**

Conventions of the model:

- Dates are day numbers counted from 1970-01-01.
- "now" is the parameter `today`.
- Ratings are counts of half points, so 0..20 stands for 0..10.
- `null` is `None`.
- A Joi message is identified by the rule that produced it (`RuleKind`).

Modules, in dependency order:

| module | file |
|---|---|
| `Wrappers` | wrappers.dfy |
| `Text` | text.dfy: JavaScript `trim`, `parseInt`, decimal rendering, capitalisation |
| `AnimeTypes` | anime_types.dfy |
| `AnimeRules` | anime_rules.dfy: the schema |
| `ErrorMap` | error_map.dfy: `mapJoiErrorToErrors` and the scoped merge of `validate` |
| `AnimeFormSession` | anime_form.dfy |
| `FormScenarios` | form_scenarios.dfy: worked examples |
| `LegacyForm` | legacy_form.dfy |
| `AnimeUtils` | anime_utils.dfy |
| `AnimeReducer` | anime_reducer.dfy |

## Model

| member | source | states |
|---|---|---|
| Text.Trim | src/components/new-anime/anime-form.tsx:217-226 | `value.trim()`: the result is no longer than the input, and neither of its ends is white space |
| Text.TrimIsInfix | src/components/new-anime/anime-form.tsx:217-226 | `value.trim()` is a contiguous part of the value, and everything dropped before and after it is white space |
| Text.TrimIdempotent | src/components/new-anime/anime-form.tsx:226 | trimming a value that has already been trimmed changes nothing |
| Text.TrimEmptyIff | src/components/new-anime/anime-form.tsx:78 | a string is empty once trimmed exactly when it consists of white space only |
| Text.ParseInt | src/components/new-anime/anime-form.tsx:146-148 | `parseInt(value, 10)` is a number exactly when, after leading white space and one optional sign, at least one digit follows |
| Text.ParseIntRoundTrip | src/components/new-anime/anime-form.tsx:146-148 | `parseInt` reads back every integer written in decimal, negative ones included |
| Text.DecimalRoundTrip | src/utils/anime-utils.ts:22 | reading back the decimal text of a natural number gives that number |
| Text.Utf16Length | src/components/new-anime/anime-form.tsx:78 | JavaScript's `length`: at least one code unit per character, and none only for the empty string |
| Text.Utf16LengthAppend | src/components/new-anime/anime-form.tsx:78 | the code units of two strings put together add up |
| Text.Utf16LengthOfBmp | src/components/new-anime/anime-form.tsx:78 | without characters beyond U+FFFF, the length in code units is the number of characters |
| Text.Utf16LengthBeyondBmp | src/components/new-anime/anime-form.tsx:78 | every character beyond U+FFFF counts as two code units |
| Text.Capitalize | src/utils/anime-utils.ts:16 | `charAt(0).toUpperCase() + slice(1)` keeps the length, upper-cases the first character and keeps the rest |
| AnimeTypes.SubtypeTextRoundTrip | src/types/anime-types.ts:21-26 | the string value of each `Subtype` member identifies that member |
| AnimeTypes.StatusTextRoundTrip | src/types/anime-types.ts:28-32 | the string value of each `Status` member identifies that member |
| AnimeTypes.DayNumberAnchors | src/components/new-anime/anime-form.tsx:93 | the day count puts 1970-01-01 at 0 and the schema's `1900-1-1` at -25567 |
| AnimeTypes.WithValue | src/components/new-anime/anime-form.tsx:151-154 | `{ ...fields, [name]: value }` holds the new value under `name` and changes no other key |
| AnimeTypes.DraftExtensionality | src/types/anime-types.ts:1-15 | two drafts that agree on all twelve keys are equal |
| AnimeRules.EnumValuesAreTheMembers | src/components/new-anime/anime-form.tsx:105-110 | the `valid(...)` lists of subtype and status are exactly the enum members' values |
| AnimeRules.RulesFor | src/components/new-anime/anime-form.tsx:81-122 | rating and start date switch on UPCOMING, and end date and episode count switch on FINISHED; any other string takes every `otherwise` branch |
| AnimeRules.EnumRule | src/components/new-anime/anime-form.tsx:105-110 | a select value passes exactly when it is in the allowed list |
| AnimeRules.ItemRule | src/components/new-anime/anime-form.tsx:126 | a trimmed category passes exactly when it is not empty and at most 256 UTF-16 code units long, and it is reported at its own index as `string.empty` or `string.max` |
| AnimeRules.FirstRepeat | src/components/new-anime/anime-form.tsx:124 | the index it finds repeats an earlier item, and no index before it (from where the search starts) does: it is the first repeat, which decides where `array.unique` is placed |
| AnimeRules.UniqueRule | src/components/new-anime/anime-form.tsx:124 | `unique()` reports at most one `array.unique` violation, under `categories` |
| AnimeRules.StringRule | src/components/new-anime/anime-form.tsx:78-80 | a string key reports at most two violations, under its own key, each of `string.base`, `string.empty`, `string.max` or `string.uri`; when it passes is fixed by `StringRuleIff` |
| AnimeRules.RatingRule | src/components/new-anime/anime-form.tsx:81-89 | when upcoming the rating passes exactly when it is `null`; otherwise exactly when it is a number in 0..10; at most one violation |
| AnimeRules.StartDateRule | src/components/new-anime/anime-form.tsx:90-94 | the start date passes exactly when it is an ISO date, after today when upcoming, otherwise between 1900-01-01 and today |
| AnimeRules.NotBeforeStart | src/components/new-anime/anime-form.tsx:97-101 | `min(Joi.ref('startDate'))` passes exactly when the start gives a date no later than the end date: a `null` start counts as 1970-01-01, `'Invalid Date'` never passes |
| AnimeRules.EndDateRule | src/components/new-anime/anime-form.tsx:95-104 | when finished the end date passes exactly when it is an ISO date not before the start and not after today; otherwise exactly when it is `null`, or after today and not before the start |
| AnimeRules.EpisodeCountRule | src/components/new-anime/anime-form.tsx:113-122 | a count passes exactly when it is a safe integer of at least 1 (1..2^53-1); `null` passes exactly when not finished; at most one violation |
| AnimeRules.CategoriesRule | src/components/new-anime/anime-form.tsx:123-127 | the categories report only `string.empty`, `string.max`, `array.unique` and `array.min`, all under `categories`; an empty list gives `array.min` alone |
| AnimeRules.FieldRule | src/components/new-anime/anime-form.tsx:77-128 | each key's violations are reported under that key, and only `categories` reports item paths |
| AnimeRules.UpcomingRules | src/components/new-anime/anime-form.tsx:81-93 | when upcoming, the rating must be `null` and the start date must be an ISO date after today |
| AnimeRules.ReleasedRules | src/components/new-anime/anime-form.tsx:81-93 | otherwise, the rating is a number in 0..10 and the start date lies between 1900-01-01 and today |
| AnimeRules.FinishedRules | src/components/new-anime/anime-form.tsx:95-122 | when finished, the end date lies between the start date (1970-01-01 for a `null` start, never after `'Invalid Date'`) and today, and an episode count in 1..2^53-1 is required |
| AnimeRules.UnfinishedRules | src/components/new-anime/anime-form.tsx:95-122 | otherwise, the end date is `null`, or after today and not before the start date (1970-01-01 for a `null` start); the episode count may be `null`, and a number must be in 1..2^53-1 |
| AnimeRules.ItemsFromEmptyIff | src/components/new-anime/anime-form.tsx:126 | the item rule reports nothing exactly when every item passes it |
| AnimeRules.FirstRepeatNoneIff | src/components/new-anime/anime-form.tsx:124 | no repeat is found exactly when no item occurs before its own index |
| AnimeRules.NoRepeatIffDistinct | src/components/new-anime/anime-form.tsx:124 | no repeat is found exactly when all items are pairwise distinct |
| AnimeRules.CategoriesRuleIff | src/components/new-anime/anime-form.tsx:123-127 | the categories pass exactly when there is at least one, each is non-empty and at most 256 UTF-16 code units once trimmed, and no two are alike once trimmed |
| AnimeRules.StringRuleIff | src/components/new-anime/anime-form.tsx:78-112 | a trimmed string key passes exactly when it is an allowed `null` or empty value, or is within its length in UTF-16 code units and is a URI where one is asked for |
| AnimeRules.RulesOverEmptyIff | src/components/new-anime/anime-form.tsx:346-348 | validating a list of keys reports nothing exactly when no key in it has a violation |
| AnimeRules.Validate | src/components/new-anime/anime-form.tsx:346-348 | `schema.validate(…, { abortEarly: false })` reports nothing exactly when no key has a violation, and reports item paths only for `categories` |
| AnimeRules.SchemaKeysComplete | src/components/new-anime/anime-form.tsx:77-128 | the schema declares every key of the draft |
| AnimeRules.KeyRuleIff | src/components/new-anime/anime-form.tsx:77-128 | one key's rule passes exactly when the key meets its entry invariant |
| AnimeRules.ValidateIffConforms | src/components/new-anime/anime-form.tsx:77-128 | the schema accepts a draft exactly when the draft meets every entry invariant |
| ErrorMap.Prepend | src/components/new-anime/anime-form.tsx:308-322 | `{ [k]: message, ...group }`: a message already in the group wins over the new one |
| ErrorMap.ErrorsOf | src/components/new-anime/anime-form.tsx:298-326 | the error map always has its shape: a non-empty group under `categories`, a single message under every other key |
| ErrorMap.MapJoiErrorToErrors | src/components/new-anime/anime-form.tsx:298-326 | walking the violations once, in order, gives the error map of the whole list |
| ErrorMap.Add | src/components/new-anime/anime-form.tsx:300-324 | one violation changes at most the entry of its own key |
| ErrorMap.AddWellShaped | src/components/new-anime/anime-form.tsx:300-324 | one violation keeps the error map's shape |
| ErrorMap.FirstIn | src/components/new-anime/anime-form.tsx:298-326 | the first violation of a slot exists exactly when some violation lands in that slot |
| ErrorMap.FirstInSnoc | src/components/new-anime/anime-form.tsx:300-324 | appending a violation changes the first one of a slot only when that slot had none |
| ErrorMap.ErrorsOfFirstWins | src/components/new-anime/anime-form.tsx:302-323 | the message shown in each slot is the first violation reported there, and a key is present exactly when some violation lands under it |
| ErrorMap.AtAdd | src/components/new-anime/anime-form.tsx:300-324 | one violation fills only its own slot, and only when that slot is empty |
| ErrorMap.KeysAdd | src/components/new-anime/anime-form.tsx:300-324 | one violation adds at most the key of its own slot |
| ErrorMap.ValidateViolationsHaveSlots | src/components/new-anime/anime-form.tsx:302-323 | every violation of the schema lands in some slot, so none is dropped |
| ErrorMap.NoErrorsIffValid | src/components/new-anime/anime-form.tsx:346-369 | validation produces an empty error map exactly when the draft meets every entry invariant |
| ErrorMap.SlotsDetermineErrors | src/components/new-anime/anime-form.tsx:298-326 | two error maps that show the same message in every slot are equal |
| ErrorMap.FirstInAppend | src/components/new-anime/anime-form.tsx:346-348 | in two lists of violations reported one after the other, a slot's first violation comes from the first list whenever that list has one |
| ErrorMap.FirstInOfOtherKey | src/components/new-anime/anime-form.tsx:346-348 | another key's violations never land in a slot |
| ErrorMap.FirstInRulesOver | src/components/new-anime/anime-form.tsx:346-348 | a slot's first violation comes from its own key's rule |
| ErrorMap.ErrorAtSlot | src/components/new-anime/anime-form.tsx:346-353 | the message shown in a slot is the first violation of that slot's key, whatever order Joi visits the keys in |
| ErrorMap.Rescoped | src/components/new-anime/anime-form.tsx:355-367 | each key in the scope takes its new entry, or loses its entry when the new validation has none; every other key keeps its previous entry |
| ErrorMap.RescopedWellShaped | src/components/new-anime/anime-form.tsx:355-367 | the scoped merge keeps the error map's shape |
| ErrorMap.RescopedSingle | src/components/new-anime/anime-form.tsx:391-400 | merging one key is setting that key or deleting it |
| ErrorMap.ApplyScoped | src/components/new-anime/anime-form.tsx:358-366 | the `errorFields.forEach` loop computes the scoped merge |
| FormScenarios.NoCategoriesScenario | src/components/new-anime/anime-form.tsx:125 | an empty category list is reported once, under `general` |
| FormScenarios.RepeatedCategoryScenario | src/components/new-anime/anime-form.tsx:124 | `["a", "a"]` is reported once as not unique, wherever Joi places the message |
| FormScenarios.BlankCategoryScenario | src/components/new-anime/anime-form.tsx:126 | in `["", "b"]`, only index 0 gets a message |
| FormScenarios.WideTitleTooLong | src/components/new-anime/anime-form.tsx:78 | a title of 129 to 256 characters beyond U+FFFF (emoji, say) breaks `max(256)`, because each counts two code units |
| FormScenarios.UnsafeEpisodeCount | src/components/new-anime/anime-form.tsx:113-122 | an episode count typed beyond 2^53-1 is read by `parseInt` and rejected as unsafe, whatever the status |
| FormScenarios.FinishedEntryConforms | src/components/new-anime/anime-form.tsx:77-128 | a complete finished entry from 2020-01-01 to 2020-06-01 passes the schema |
| FormScenarios.EmptyPosterViolations | src/components/new-anime/anime-form.tsx:111 | the same entry with an empty poster image breaks the poster image's rule and no other |
| FormScenarios.EmptyPosterSlot | src/components/new-anime/anime-form.tsx:298-326 | slot by slot, that entry's error map shows the poster image's message and nothing else |
| FormScenarios.ClearedStartScenario | src/components/new-anime/anime-form.tsx:249-261 | clearing a finished entry's start date reports the start date alone: the end date is compared with 1970-01-01 and passes |
| FormScenarios.EmptyPosterScenario | src/components/new-anime/anime-form.tsx:298-326 | the error map of that entry holds the poster image's message alone |
| AnimeFormSession.DefaultFieldsAreTheEnumDefaults | src/components/new-anime/anime-form.tsx:50-63 | a new entry starts as a TV series, finished, rated 10, with both dates and the episode count `null`, every text box empty and one empty category |
| AnimeFormSession.TextInput | src/components/new-anime/anime-form.tsx:151-154 | a text box stores its text under its own key, with the type that key holds |
| AnimeFormSession.Overlay | src/components/new-anime/anime-form.tsx:333-343 | `validate` checks a draft in which the patched keys hold the patch's values and every other key holds the current value |
| AnimeFormSession.OverlayEmpty | src/components/new-anime/anime-form.tsx:333-343 | `validate()` without new fields checks the current draft |
| AnimeFormSession.OverlaySingle | src/components/new-anime/anime-form.tsx:333-343 | a one-key patch is the same as storing that key |
| AnimeFormSession.ApplyPatch | src/components/new-anime/anime-form.tsx:333-343 | the `Object.keys(newFields).forEach` copy loop builds the overlaid draft |
| AnimeFormSession.SingleKeyViolations | src/components/new-anime/anime-form.tsx:386-390 | `schema.extract(name)` on the value alone reports only violations under `name` |
| AnimeFormSession.SingleKeyAgreesWithSchema | src/components/new-anime/anime-form.tsx:386-390 | for a key whose rule does not depend on `status`, checking its value alone gives the violations the whole schema reports for it |
| AnimeFormSession.SingleKeyErrorsUnderKey | src/components/new-anime/anime-form.tsx:393-396 | the violations of one key are mapped under that key only, so `validateSingleField` touches no other entry |
| AnimeFormSession.Resync | src/components/new-anime/anime-form.tsx:372-381 | a new start date of a finished entry becomes its end date and the start date last seen; afterwards nothing is left to re-sync, and only the end date changed |
| AnimeFormSession.ResyncIdempotent | src/components/new-anime/anime-form.tsx:372-381 | a second re-sync with the same start date does nothing |
| AnimeFormSession.ResyncExample | src/components/new-anime/anime-form.tsx:372-381 | moving a finished entry's start date to 2023-02-01 moves its end date there too |
| AnimeFormSession.Splice | src/components/new-anime/anime-form.tsx:276-278 | `splice(idx, 1)` removes exactly the item at `idx` and keeps the others in order |
| AnimeFormSession.SpliceMultiset | src/components/new-anime/anime-form.tsx:276-278 | removing a category loses that one item and no other |
| AnimeFormSession.StatusPatch | src/components/new-anime/anime-form.tsx:158-187 | UPCOMING also sets the end date and the rating to `null`; the other statuses change the status alone |
| AnimeFormSession.DateScope | src/components/new-anime/anime-form.tsx:241-246 | a date change re-validates its own date and the end date, and no other key |
| AnimeFormSession.AlertShown | src/components/new-anime/anime-form.tsx:726-732 | the "correct the highlighted errors" banner shows exactly when an error is present; the unknown-error banner shows only when no error is present and the flag is set |
| AnimeFormSession.AnimeForm.constructor | src/components/new-anime/anime-form.tsx:44-70 | an edit starts from the entry's fields without its id, a new entry from the defaults; the error map is empty and `preStartDate` is the start date |
| AnimeFormSession.AnimeForm.Validate | src/components/new-anime/anime-form.tsx:329-370 | the answer is whether the patched draft meets every entry invariant; without a scope the error map is replaced, with one only the scoped keys change |
| AnimeFormSession.AnimeForm.ValidateSingleField | src/components/new-anime/anime-form.tsx:383-401 | the key's own entry becomes the result of checking the value alone, and every other entry stays |
| AnimeFormSession.AnimeForm.HandleChange | src/components/new-anime/anime-form.tsx:140-156 | a text box stores its raw text; the episode count box stores `parseInt` of its text, or `null` |
| AnimeFormSession.AnimeForm.HandleSelectChange | src/components/new-anime/anime-form.tsx:158-195 | one of the three statuses takes effect and re-validates status, start date, end date, episode count and rating; any other status is ignored; a subtype is stored and checked alone |
| AnimeFormSession.AnimeForm.HandleRatingChange | src/components/new-anime/anime-form.tsx:197-207 | the rating is stored and only its entry is re-validated against the whole draft |
| AnimeFormSession.AnimeForm.HandleTextFieldBlur | src/components/new-anime/anime-form.tsx:209-233 | a text box or category is trimmed, stored and checked alone; the episode count is re-checked against the whole draft without being changed |
| AnimeFormSession.AnimeForm.HandleDateChange | src/components/new-anime/anime-form.tsx:235-247 | the date is stored and re-validated together with the end date |
| AnimeFormSession.AnimeForm.ClearDate | src/components/new-anime/anime-form.tsx:249-261 | clearing a date is storing `null` and re-validating as for a change |
| AnimeFormSession.AnimeForm.HandleCategoryChange | src/components/new-anime/anime-form.tsx:263-274 | only the edited category changes, and nothing is validated |
| AnimeFormSession.AnimeForm.RemoveCategory | src/components/new-anime/anime-form.tsx:276-286 | the category is removed and the whole `categories` entry is replaced by checking the remaining list, so no stale index survives |
| AnimeFormSession.AnimeForm.AddEmptyCategory | src/components/new-anime/anime-form.tsx:288-296 | `""` is appended; the list is checked only when its new length is 1 |
| AnimeFormSession.AnimeForm.ResyncStartDate | src/components/new-anime/anime-form.tsx:372-381 | the render-time re-sync happens, and when it fires the end date is re-validated |
| AnimeFormSession.AnimeForm.HandleSubmit | src/components/new-anime/anime-form.tsx:403-412 | the draft is handed over exactly when it meets every entry invariant; otherwise the error map is non-empty, the unknown-error flag is raised when no error was shown before, and the banner asks to correct the highlighted errors |
| LegacyForm.LegacyRulesFor | src/components/anime-form.tsx:60-70 | in the older schema only the start date switches on UPCOMING and only the end date on FINISHED |
| LegacyForm.LegacyEndDateRule | src/components/anime-form.tsx:66-70 | unless finished, the end date must be exactly `null` |
| LegacyForm.LegacyFieldRule | src/components/anime-form.tsx:56-90 | each key's violations are reported under that key |
| LegacyForm.LegacyKeyRuleIff | src/components/anime-form.tsx:56-90 | a key passes the older schema exactly when it meets the older invariant: a rating in 0..10 whatever the status; the end date `null` unless finished; untrimmed URIs; an optional episode count in 1..2^53-1 |
| LegacyForm.UpcomingRatingContrast | src/components/anime-form.tsx:60 | an upcoming entry rated 10 passes the older schema and fails the new one |
| LegacyForm.FinishedEpisodeCountContrast | src/components/anime-form.tsx:79-84 | a finished entry without an episode count passes the older schema and fails the new one |
| LegacyForm.BlankPosterContrast | src/components/anime-form.tsx:77 | a blank poster URL reaches the older schema's URI check, while the new schema reports it as empty |
| LegacyForm.LegacySingleKeyViolations | src/components/anime-form.tsx:129-131 | `schema.extract(name)` reports only violations under `name` |
| LegacyForm.LegacySingleKeyAgreesWithSchema | src/components/anime-form.tsx:129-131 | apart from the two dates, checking a value alone is checking it within the draft |
| LegacyForm.LegacyDefaults | src/components/anime-form.tsx:30-43 | the older defaults are the new ones except that the start date is today |
| LegacyForm.LegacyResync | src/components/anime-form.tsx:48-54 | any new start date other than `'Invalid Date'` (`null` included) becomes the end date, whatever the status; afterwards nothing is left to re-sync |
| LegacyForm.ResyncConditionsCompared | src/components/anime-form.tsx:48-51 | the two re-syncs fire alike for a finished entry whose start is a date; only the newer one copies `'Invalid Date'` into the end date |
| LegacyForm.LegacyResyncIdempotent | src/components/anime-form.tsx:48-54 | a second re-sync does nothing |
| LegacyForm.LegacyResyncIgnoresStatus | src/components/anime-form.tsx:48-54 | clearing an upcoming entry's start date clears its end date, which the new form's re-sync never does |
| LegacyForm.TrimIfTruthy | src/components/anime-form.tsx:194-198 | `null` stays `null` and a text stays a text |
| LegacyForm.TrimIfTruthyIsTrim | src/components/anime-form.tsx:194-198 | sparing `''` from trimming changes nothing, so the guard only protects `null` |
| LegacyForm.TrimForSubmit | src/components/anime-form.tsx:189-200 | title, description and poster image are trimmed, English title and cover image are trimmed when not `null`, and every other key is handed over as entered |
| LegacyForm.TrimForSubmitTrims | src/components/anime-form.tsx:189-200 | no submitted text has white space at either end |
| LegacyForm.TrimForSubmitIdempotent | src/components/anime-form.tsx:189-200 | submitting an already-trimmed draft hands it over unchanged |
| LegacyForm.RawInput | src/components/anime-form.tsx:110-115 | a text box or select stores its value under its own key, with the type that key holds |
| LegacyForm.LegacyAnimeForm.constructor | src/components/anime-form.tsx:30-45 | the form starts from the older defaults, `preStartDate` is today, and the error map is empty |
| LegacyForm.LegacyAnimeForm.ResyncStartDate | src/components/anime-form.tsx:48-54 | the render-time re-sync happens, without any validation |
| LegacyForm.LegacyAnimeForm.HandleChange | src/components/anime-form.tsx:96-116 | text boxes and selects store their raw value; the episode count box stores `parseInt` of its text, or `null` |
| LegacyForm.LegacyAnimeForm.HandleRatingChange | src/components/anime-form.tsx:110-115 | the widget's value (or `null`) is stored as it is, without validation |
| LegacyForm.LegacyAnimeForm.ValidateField | src/components/anime-form.tsx:129-143 | the key's entry becomes the first violation of its value checked alone, or is deleted; no other entry changes; apart from the dates, the entry is present exactly when the key breaks the older invariant |
| LegacyForm.LegacyAnimeForm.HandleTextFieldBlur | src/components/anime-form.tsx:118-127 | on title, English title, description or poster image (the cover image box has no blur handler), the trimmed text is stored, but the check reads the value from before the blur |
| LegacyForm.LegacyAnimeForm.HandleDateChange | src/components/anime-form.tsx:145-150 | the date is stored and nothing is checked |
| LegacyForm.LegacyAnimeForm.ClearDate | src/components/anime-form.tsx:152-157 | the date becomes `null` and nothing is checked |
| LegacyForm.LegacyAnimeForm.HandleCategoryChange | src/components/anime-form.tsx:164-178 | without an event the category at `idx` is removed, with one it is overwritten; nothing is checked |
| LegacyForm.LegacyAnimeForm.AddEmptyCategory | src/components/anime-form.tsx:180-186 | `""` is appended and nothing is checked |
| LegacyForm.LegacyAnimeForm.HandleSubmit | src/components/anime-form.tsx:189-200 | the trimmed draft is handed over on every submit, valid or not |
| AnimeUtils.AnimeTypeFormatter | src/utils/anime-utils.ts:3-10 | TV is shown as "TV Series" and Movie as "Movie"; ONA and OVA are shown as they are |
| AnimeUtils.AnimeTypeFormatterInjective | src/utils/anime-utils.ts:3-10 | no two subtypes share a label |
| AnimeUtils.AnimeStatusFormatter | src/utils/anime-utils.ts:12-18 | current is shown as "Currently Airing"; any other status is capitalised: same length, first letter upper-cased, the rest kept |
| AnimeUtils.AnimeStatusFormatterExamples | src/utils/anime-utils.ts:12-18 | the labels are "Currently Airing", "Finished" and "Upcoming" |
| AnimeUtils.AnimeStatusFormatterInjective | src/utils/anime-utils.ts:12-18 | no two statuses share a label |
| AnimeUtils.AnimeRatingFormatter | src/utils/anime-utils.ts:20-23 | no rating is shown as `-`, and no rating's text is `-` |
| AnimeUtils.WholeRatingText | src/utils/anime-utils.ts:22 | a whole number of points is its decimal text followed by `.0` |
| AnimeUtils.AnimeRatingFormatterExamples | src/utils/anime-utils.ts:22 | 10 is shown as `10.0`, 7.5 as `7.5` and 0 as `0.0` |
| AnimeUtils.RatingTextOneDot | src/utils/anime-utils.ts:20-23 | every rating's text holds exactly one `.`; the text for no rating holds none |
| AnimeUtils.PointsRoundTrip | src/utils/anime-utils.ts:22 | the unsigned text of a number of half points reads back as that number |
| AnimeUtils.RatingTextRoundTrip | src/utils/anime-utils.ts:22 | reading a formatted rating back gives the rating |
| AnimeUtils.AnimeRatingFormatterInjective | src/utils/anime-utils.ts:20-23 | no two ratings share a text |
| AnimeReducer.AnimeReducer | src/contexts/anime-reducer.ts:1-9 | `SET_ANIMES` gives a state whose list is the payload, with loading and error carried over; every other action gives `undefined` |
| AnimeReducer.SetAnimesIdempotent | src/contexts/anime-reducer.ts:3-7 | setting the same list twice is setting it once |
| AnimeReducer.SetAnimesOverrides | src/contexts/anime-reducer.ts:3-7 | the last list set wins |
| AnimeReducer.UnhandledActions | src/contexts/anime-context-types.ts:10-14 | `START_LOADING`, `SET_LOADING` and `SET_ERROR` give `undefined` |

## Behaviour of the code worth knowing

- **What submit hands over.** Submit in the new form passes `fields` as they stand (src/components/new-anime/anime-form.tsx:403-412). `AnimeForm.HandleSubmit` appends `fields` unchanged. Text boxes are trimmed on blur, so only a value that was never blurred reaches the callback untrimmed.
- **When the unknown-error flag is set.** `isErrorsExisted` (src/components/new-anime/anime-form.tsx:73-75) is the value from the render before the submit. So a failed submit raises the flag whenever no error was shown before, for example on the very first submit of a blank form. `AnimeForm.HandleSubmit` states this. `AlertShown` shows that right after such a submit, the banner still asks the user to correct the highlighted errors, because the error map is then non-empty. The flag stays set until a submit succeeds, so the unknown-error banner appears if every error is later cleared field by field.

## Left out

- **Joi's message texts and `console.log`.** A message is represented by the rule that produced it.
- **URI syntax.** Joi's `uri()` is the parameter `Env.isUri`, because its grammar is Joi's own code.
- **Placement of `array.unique`.** Where Joi reports it (at the array or at the duplicate's index) is `Env.uniqueAt`. Both placements are covered by the scenarios.
- **"now".** It is a day (`today`) because dates are compared at day granularity. Time zones and the time of day are not modelled. Dates come from the picker already formatted: `Iso(day)`, `null`, or `'Invalid Date'`.
- **The submit callback and the API.** The asynchronous call is recorded in the `submitted` log. Its outcome, navigation and the cancel button are not modelled.
- **React rendering.** Each handler runs to completion and its state updates take effect at its end. `validate` reads the draft from before the handler, as the component's closure does. The re-sync is the method `ResyncStartDate`, which a render calls.
- **Joi's type conversion of mistyped values.** The draft is typed, so a string in a number slot cannot be represented.
- **The older form's blur on the episode count.** It stores the trimmed text in the numeric slot. `LegacyAnimeForm.HandleTextFieldBlur` covers only the four named text boxes, for the reason above.
- **The older form's message for an empty category list.** Its item schema adds `.min(1).required()`, so Joi reports `array.includesRequiredUnknowns` before `array.min`. `LegacyFieldRule` reuses the newer categories rule: the verdict is the same, and the older form never checks `categories` on its own.
- **The older form's blur on a category input.** The input has no `name`, so the handler stores an extra key `""` and `schema.extract('')` throws. This is not modelled.
- **Sparse arrays.** `HandleCategoryChange` in both forms requires the index to be that of a rendered category, so JavaScript's array growth by assignment past the end is not modelled.
- **`validateSingleField`'s unknown-name guard.** `FieldName` holds only the twelve keys, so the early return never applies.
- **Item paths under keys other than `categories`.** `mapJoiErrorToErrors` drops these, and the schema never produces them (`ErrorMap.ValidateViolationsHaveSlots`).
- ParseInt: keeps the exact value of the digits, where JavaScript rounds to the nearest double and gives `Infinity` beyond its range. The two agree up to 2^53-1; a longer count is rejected in both, as `number.unsafe` in the model where Joi reports `number.infinity` once the text exceeds the double range.
- EpisodeCountRule: reports a count beyond 2^53-1 as `number.unsafe` whatever its size; for an `Infinity` from `parseInt` Joi's message is `number.infinity` instead (same verdict, same key).
- AnimeRatingFormatter: writes every digit of the whole points exactly; JavaScript rounds a number beyond 2^53 to a double and writes one of 10^21 or more in exponent form (`"1e+21.0"`), so `WholeRatingText` and the round trips hold for the model's text, not for such huge ratings from the API.
- **Ratings finer than half a point.** The rating widget has 0.5 precision, so other values are not modelled. The rating formatter is modelled on half points.
- **UI-only code.** `isDisabled`, `endDateMin`, `endDateValue`, the image previews, styles, and the `disabled`, `minDate` and `noValidate` props.
- **The extra state props.** The reducer's state is the three fields declared in src/contexts/anime-context-types.ts, so any further props a caller puts in it are not modelled.
- **The new form's `Errors` and `AnimeEditFields` types.** They are not in the type file of this revision (src/types/components/anime-form-types.ts declares `ErrorsState`). The model takes their shape from how the form uses them.
