# vacancy-bot in Dafny

A Dafny model of the Telegram job-application bot `vacancy-bot`. The bot keeps a conversation
per user. The user picks a vacancy, gives a location or types an address, picks one of the five
nearest shops, and then enters a full name, a phone number and an age. After confirming, the
application goes to the managers' chat. Users idle for more than thirty minutes are forgotten.

What is modelled:

- **The conversation of `index.js`.**
  - `Bot.SessionStore` is a class. Its fields are the process-wide tables `userStates`,
    `userData` and `lastActivity`, plus an outbox.
  - It has one method per inbound event (text, contact, location, `/start`, `/cancel`), one per
    helper transition, and the inactivity sweep.
  - Each method is proved to leave the tables as a pure transition function of module
    `Conversation` says.
  - The properties are lemmas about those functions, in module `ConversationProps`:
    - the validation rules;
    - "nothing else changes";
    - the tables stay consistent;
    - the sweep forgets exactly the idle users.
- **The data and address logic of `sheetsService.js`.**
  - `SheetRows` holds the row extraction of `getVacancies` and `getDataForVacancy`.
  - `Address` holds `normalizeAddress` and `buildAddressVariants`.
  - `Geocoding` holds `parseYandexCoordinates` over a small JSON datatype, and the provider
    chain of `geocodeAddress`.
  - `Ranking` holds the nearest-shop ranking: filter, stable sort by distance, first five.
- **The standalone contact handler of `handlers/phone.js`.** This is `PhoneHandler.ContactStore`,
  over a map-backed store.
- **JavaScript's own behaviour, spelled out.** `JsStrings` covers `trim`, `split`, `join`,
  `includes`, `replace(/\D/g, '')`, `parseInt` and the `/^(\d+)\./` match. `Seqs` covers
  filtering, flattening and deduplication.

Parameters stand in for what the model cannot compute:

- `String.prototype.toLowerCase` is `lower`;
- `parseFloat` is `parseFloat`, over a `Float` that has `NaN`;
- the Haversine distance is `distance`;
- the Yandex and OpenStreetMap geocoders are `primary` and `secondary`;
- the two sheet reads are `Fetch` values: the call threw, or it returned `undefined` or rows;
- `Date.now()` is an integer `now`;
- `process.env.MANAGER_CHAT_ID` is `managerChat`;
- the enumeration order of `for (userId in userStates)` is a sequence `order`.

Where the code and the specification of the bot disagree, the model follows the code:

- The `contact` handler of `index.js` accepts the sender's own contact in any state and moves
  to REQUESTING_AGE (index.js:110-125). It does not require REQUESTING_PHONE.
- Confirming deletes the state and the form but keeps the `lastActivity` record
  (index.js:733-734). The sweep visits only users with a state (index.js:35), so that record
  is never removed while the user has no state. After a later `/start` the user has a state
  again, and the sweep removes the record once it is idle.
- `/cancel` itself does not record activity (index.js:761-770). Only the generic `message`
  handler, which also runs for commands, does.

## Model

| member | source | states |
|---|---|---|
| Bot.SessionStore.constructor | index.js:24-27 | the three tables start empty and consistent |
| Bot.SessionStore.Touch | index.js:138-142 | only the sender's activity record changes, to `(now, chat)` |
| Bot.SessionStore.LoadAndShowVacancies | index.js:308-359 | state CHOOSING_VACANCY; the offered list (sheet vacancies, or the 4-item placeholder when empty) is stored in the form; the keyboard rows flatten back to that list and number ceil(n/2) |
| Bot.SessionStore.LoadAndShowShops | index.js:362-435 | with a falsy vacancy or location nothing changes; otherwise the stored shops are the ranking of the sheet's shops, or of the test shop when there are none; the result has at most five shops, all located, in non-decreasing distance |
| Bot.SessionStore.OnStart | index.js:68-92 | records the activity, resets the form, then offers the vacancies; the keyboard flattens to the offered list; the class invariant `Valid` is required and kept |
| Bot.SessionStore.OnCancel | index.js:761-770 | the user's state and form are gone; nothing else changes; the class invariant `Valid` is required and kept |
| Bot.SessionStore.OnContact | index.js:95-130 | equals the contact step: another person's contact changes nothing; the sender's own stores the phone and sets REQUESTING_AGE; the class invariant `Valid` is required and kept |
| Bot.SessionStore.OnLocation | index.js:279-305 | equals the location step: records the activity; only in REQUESTING_LOCATION stores the coordinates, sets SHOWING_SHOPS and ranks the shops; the class invariant `Valid` is required and kept |
| Bot.SessionStore.HandleShopSelection | index.js:489-547 | equals the shop-selection step: back button, selection of shop n, or no change |
| Bot.SessionStore.HandleVacancyDetails | index.js:550-599 | equals the details step: back to SHOWING_SHOPS, on to REQUESTING_FIO, or no change |
| Bot.SessionStore.HandleFioInput | index.js:629-653 | equals the name step: an accepted name is stored trimmed with REQUESTING_PHONE, otherwise no change |
| Bot.SessionStore.HandleConfirmation | index.js:656-740 | equals the confirmation step: send appends one application when a managers' chat is set and drops state and form; revise sets START |
| Bot.SessionStore.HandlePhoneInput | index.js:155-180 | an accepted digit string is stored as the phone with REQUESTING_AGE; otherwise the tables are unchanged |
| Bot.SessionStore.HandleAgeInput | index.js:182-194 | an accepted age is stored with CONFIRMATION; otherwise the tables are unchanged |
| Bot.SessionStore.HandleVacancyChoice | index.js:196-224 | a text among the stored `availableVacancies` becomes `selectedVacancy` with REQUESTING_LOCATION; otherwise the tables are unchanged |
| Bot.SessionStore.HandleAddressInput | index.js:226-265 | the back text offers the vacancies again; a geocoded address is stored with SHOWING_SHOPS and the shops are ranked; a failed geocode changes nothing |
| Bot.SessionStore.OnMessage | index.js:133-276 | equals the message step; the tables stay consistent; the sender's activity is recorded whatever the message |
| Bot.SessionStore.Sweep | index.js:28-56 | equals the sweep over `order`; state, form and activity are removed for exactly the users with a state whose last activity is more than 30 minutes before `now`; the class invariant `Valid` is required and kept |
| Conversation.MessageStep | index.js:133-276 | the `message` handler as a value: activity always, then the dispatch of a plain text on the state; its properties are in MessageKeepsConsistent, IgnoredMessage and the per-state `…Step` rows |
| Conversation.StartStep | index.js:68-92 | `/start`: activity, an empty form, then loadAndShowVacancies; EventsKeepConsistent and Bot.SessionStore.OnStart carry its properties |
| Conversation.CancelStep | index.js:761-770 | `/cancel`: state and form removed, activity kept; EventsKeepConsistent and Bot.SessionStore.OnCancel carry its properties |
| Conversation.ContactStep | index.js:95-130 | the `contact` handler; its properties are in ContactRule |
| Conversation.LocationStep | index.js:279-305 | the `location` handler; its properties are in LocationRule |
| Conversation.ShowVacancies | index.js:308-359 | loadAndShowVacancies: CHOOSING_VACANCY with the offered list stored; ShowVacanciesKeeps and OfferedVacanciesSpec carry its properties |
| Conversation.ShowShops | index.js:362-435 | loadAndShowShops: the ranking stored when a vacancy and a truthy location are set; ShownShops and ShowShopsConsistent carry its properties |
| Conversation.ShopSelection | index.js:489-547 | handleShopSelection; its properties are in ShopStep and ShopSelectionKeeps |
| Conversation.VacancyDetails | index.js:550-599 | handleVacancyDetails; its properties are in DetailsStep and VacancyDetailsKeeps |
| Conversation.FioInput | index.js:629-653 | handleFioInput; its properties are in FioStep and FioInputKeeps |
| Conversation.ConfirmationStep | index.js:656-740 | handleConfirmation; its properties are in ConfirmationRule and ConfirmationKeeps |
| Conversation.SweepUser | index.js:35-54 | one turn of the sweep loop; SweepUserKeepsConsistent carries its property |
| Conversation.SweepSpec | index.js:31-56 | the sweep over the enumeration order; SweepClosedForm and SweepForgetsExactlyIdleUsers carry its properties |
| Conversation.PhonePattern | index.js:157 | `/^7\d{10}$/`; PhoneRule relates it to its closed form |
| Conversation.PhoneAccepted | index.js:157-161 | the pattern or the manual length test; PhoneRule, PhoneAcceptedExample and PhoneRejectedExample carry its properties |
| Conversation.AcceptedAge | index.js:183-184 | parseInt within [14, 100]; AgeStep and the age example rows carry its properties |
| Conversation.FioAccepted | index.js:630 | at least two pieces after trim and split on a space; FioRule gives the closed form |
| Conversation.NumberedChoice | index.js:513-515 | the number in front of `.` of a shop button; ShopButtonRoundTrip and ShopButtonNeedsNumber carry its properties |
| Conversation.OfferedVacancies | index.js:331-338 | the sheet's vacancies, or the placeholder list when empty; OfferedVacanciesSpec carries its properties |
| Conversation.PlaceholderShop | index.js:383-396 | the test shop with its fixed Moscow coordinates; ShownShops uses it |
| Conversation.ShopsToRank | index.js:383-396 | the sheet's shops for the vacancy, or the test shop when there are none; ShownShops carries its properties |
| ConversationProps.MessageKeepsConsistent | index.js:133-276 | every message records the sender's activity as `(now, chat)`, and every user with a state keeps a form and an activity record |
| ConversationProps.FioInputKeeps | index.js:629-637 | handleFioInput keeps the activity records and the consistency of the tables |
| ConversationProps.ShopSelectionKeeps | index.js:489-520 | handleShopSelection keeps the activity records and the consistency of the tables |
| ConversationProps.VacancyDetailsKeeps | index.js:565-589 | handleVacancyDetails keeps the activity records and the consistency of the tables |
| ConversationProps.ConfirmationKeeps | index.js:656-740 | handleConfirmation keeps the activity records and the consistency of the tables |
| ConversationProps.ShowVacanciesKeeps | index.js:308-341 | loadAndShowVacancies keeps the activity records and the consistency of the tables |
| ConversationProps.IgnoredMessage | index.js:144-152 | a missing, empty, command or contact text, or a sender without a state or at START, changes no state, form or outbox |
| ConversationProps.ShowShopsConsistent | index.js:362-435 | loadAndShowShops changes no state and no activity record and keeps the tables consistent |
| ConversationProps.EventsKeepConsistent | index.js:68-305 | `/start`, `/cancel`, contact and location keep the tables consistent |
| ConversationProps.PhoneRule | index.js:157-161 | for a digit string, both the regular expression and the manual test hold exactly when it has 11 digits and starts with 7 |
| ConversationProps.PhoneStep | index.js:155-180 | in REQUESTING_PHONE, 11 digits starting with 7 store those digits and set REQUESTING_AGE; anything else changes nothing |
| ConversationProps.PhoneAcceptedExample | index.js:158-161 | the typed number `+7 (900) 123-45-67` is cleaned to `79001234567`, which is accepted |
| ConversationProps.PhoneRejectedExample | index.js:161 | ten digits starting with 8 are refused |
| ConversationProps.AgeStep | index.js:182-194 | in REQUESTING_AGE, `parseInt` in [14, 100] stores the age and sets CONFIRMATION; anything else changes nothing |
| ConversationProps.AgeAcceptedExamples | index.js:183-184 | `17` and `17 лет` are the age 17 |
| ConversationProps.HexAgeExample | index.js:183-184 | `0x11` is read as hexadecimal and accepted as the age 17 |
| ConversationProps.AgeRejectedExamples | index.js:183-184 | `13`, `101` and `abc` are refused |
| ConversationProps.VacancyStep | index.js:196-209 | in CHOOSING_VACANCY, a text exactly among the offered vacancies is selected and sets REQUESTING_LOCATION; anything else changes nothing |
| ConversationProps.FioRule | index.js:630 | a name is accepted exactly when its trimmed text contains a space |
| ConversationProps.FioStep | index.js:629-637 | in REQUESTING_FIO, a trimmed text with a space is stored trimmed and sets REQUESTING_PHONE; anything else changes nothing |
| ConversationProps.ShopStep | index.js:489-520 | in SHOWING_SHOPS, the back text sets REQUESTING_LOCATION; `n.` with 1 <= n <= the number of listed shops selects shop n-1 and sets SHOWING_VACANCY_DETAILS; anything else changes nothing |
| ConversationProps.ShopButtonRoundTrip | index.js:465-468 | the button text built for the shop at index i reads back as choice i+1 through `/^(\d+)\./` and `parseInt` |
| ConversationProps.ShopButtonNeedsNumber | index.js:513-514 | a text not starting with a digit selects nothing |
| ConversationProps.DetailsStep | index.js:550-599 | in SHOWING_VACANCY_DETAILS, only the back text (to SHOWING_SHOPS) and the apply text (to REQUESTING_FIO) move, keeping the form |
| ConversationProps.ConfirmationRule | index.js:656-740 | in CONFIRMATION, send drops state and form but keeps the activity record and appends exactly one application when the managers' chat is set; revise sets START and keeps the form; other texts change nothing |
| ConversationProps.ContactRule | index.js:95-130 | another person's contact leaves everything, the activity record included, unchanged; the sender's own stores the phone and sets REQUESTING_AGE from any state |
| ConversationProps.LocationRule | index.js:279-305 | outside REQUESTING_LOCATION a location changes no state, form or outbox; inside it, the state becomes SHOWING_SHOPS and the location is stored |
| ConversationProps.OfferedVacanciesSpec | index.js:331-338 | the offered vacancy list is never empty and has no duplicates |
| ConversationProps.ShownShops | index.js:362-435 | with a chosen vacancy and a truthy location, the stored shops are at most five, all located, nearest first; with no sheet data, exactly the test shop at its distance |
| ConversationProps.SweepUserKeepsConsistent | index.js:39-54 | one turn of the sweep keeps the tables consistent |
| ConversationProps.SweepKeepsConsistent | index.js:31-56 | the sweep keeps the tables consistent |
| ConversationProps.SweepClosedForm | index.js:35-54 | the expired users of `order` lose state, form and activity record, and each with a chat id gets one notice, in order; no one else is touched |
| ConversationProps.SweepForgetsExactlyIdleUsers | index.js:28-56 | when `order` lists the users with a state once each, exactly those idle for more than 30 minutes are removed from all three tables |
| Ranking.Candidates | index.js:413-426 | the shops with truthy coordinates, each with its distance; RankOnlyLocated carries its properties |
| Ranking.InsertByDistance | index.js:429 | one insertion step of the stable sort; InsertPermutes, InsertSorted and InsertStable carry its properties |
| Ranking.SortByDistance | index.js:429 | the stable sort on `a.distance - b.distance`; SortSpec and SortStable carry its properties |
| Ranking.Take | index.js:432 | `slice(0, n)`; RankSize carries its property |
| Ranking.Rank | index.js:413-432 | filter, sort, first five; RankSize, RankOnlyLocated, RankSorted, RankNearest and RankStablePrefix carry its properties |
| Ranking.InsertPermutes | index.js:429 | inserting by distance adds exactly the new shop |
| Ranking.InsertSorted | index.js:429 | inserting into a sorted list keeps it sorted |
| Ranking.InsertStable | index.js:429 | inserting keeps equal-distance shops in their order, the new one last |
| Ranking.SortSpec | index.js:429 | the sort result is sorted by distance and a permutation of its input |
| Ranking.SortStable | index.js:429 | shops at equal distance keep their input order (stable sort) |
| Ranking.RankSize | index.js:413-432 | the ranking has min(5, number of located shops) entries |
| Ranking.RankOnlyLocated | index.js:413-426 | every ranked shop comes from the input, has truthy latitude and longitude, and carries its distance from the user |
| Ranking.RankSorted | index.js:429-432 | the ranking is non-decreasing by distance |
| Ranking.RankNearest | index.js:429-432 | every located shop left out is at least as far as every shop kept |
| Ranking.RankStablePrefix | index.js:413-432 | the ranking is a prefix of the stably sorted located shops |
| Keyboards.ChunkPairs | index.js:344-347 | ceil(n/2) rows of one or two buttons, all but the last of two, flattening back to the list in order |
| Address.Parts | sheetsService.js:185 | `split(',').map(trim).filter(Boolean)`; PartsAreFields, PartsOfField, PartsAppendField and PartsOfThreeFields carry its properties |
| Address.AddressCandidates | sheetsService.js:200-214 | the five candidate queries in their fixed order; BuildAddressVariants carries its properties |
| Address.NormalizeAddress | sheetsService.js:184-198 | the result always starts with `Россия, ` |
| Address.NormalizedFields | sheetsService.js:184-195 | with at least 3 non-empty comma parts, the result's parts are `Россия`, the city, the street (with `улица ` prepended exactly when it has no street-type token), and the remaining parts joined by spaces |
| Address.ShortAddressFields | sheetsService.js:196-197 | with fewer than 3 non-empty parts, the result's parts are `Россия` followed by the input's parts |
| Address.NormalizeUntypedStreet | sheetsService.js:186-195 | `city, street, house` with an untyped street normalizes to `Россия, city, улица street, house` |
| Address.NoStreetTypeInTverskaya | sheetsService.js:190-191 | `тверская` contains none of the street-type tokens |
| Address.NormalizeExample | sheetsService.js:184-195 | `Москва, Тверская, 1` normalizes to `Россия, Москва, улица Тверская, 1` |
| Address.PartsOfThreeFields | sheetsService.js:185 | three trimmed comma-free non-empty fields joined by `, ` split back into those fields |
| Address.PartsOfNormalizedShape | sheetsService.js:185-195 | the normalized form's parts are the country, city, street and house |
| Address.PartsAppendField | sheetsService.js:185 | appending `, field` appends the field to the parts |
| Address.PartsOfField | sheetsService.js:185 | a single field is its own only part |
| Address.PartsAreFields | sheetsService.js:185 | every part is trimmed, non-empty and comma-free |
| Address.FieldInFront | sheetsService.js:195 | a field and `, ` put in front of a text add exactly that field before the text's parts |
| Address.CountryAddsOneField | sheetsService.js:195-197 | the `Россия, ` prefix adds exactly the part `Россия` |
| Address.JoinFields | sheetsService.js:189 | the house parts joined by spaces form one field |
| Address.StreetFieldIsField | sheetsService.js:193 | `улица street` is still a field |
| Address.TrimmedNonEmptyAppend | sheetsService.js:185 | trim-and-drop-empty distributes over concatenation |
| Address.TrimmedNonEmptyFields | sheetsService.js:185 | trimming comma-free pieces and dropping empty ones leaves fields |
| Address.TrimSpaceFront | sheetsService.js:185 | a leading space does not change the trimmed text |
| Address.TrimInfix | sheetsService.js:185 | trimming introduces no new character |
| Address.SplitAfterSpace | sheetsService.js:185 | a leading space stays in the first comma piece |
| Address.TrimmedNonEmptySpaceFront | sheetsService.js:185 | a leading space on the first piece does not change the parts |
| Address.NotContainedForMissingChar | sheetsService.js:191 | a token with a character the text lacks is not contained in it |
| Address.KeepUnseen | sheetsService.js:215-221 | the `seen`-set filter keeps the first candidate of each lower-case key, in order |
| Address.BuildAddressVariants | sheetsService.js:200-222 | 1 to 5 variants, the first the trimmed input, no two equal ignoring case, a subsequence of the five candidates in their fixed order |
| Geocoding.ParseYandexCoordinates | sheetsService.js:246-264 | the features shape first, then the legacy `pos` string, otherwise null or a TypeError; the round-trip rows below carry its properties |
| Geocoding.YandexResult | sheetsService.js:224-244 | what yandexGeocode resolves to, null when parsing throws; NullMemberThrows carries that case |
| Geocoding.FirstHit | sheetsService.js:168-182 | the first primary answer over the variants; FirstHitSpec carries its properties |
| Geocoding.Geocoded | sheetsService.js:168-182 | the provider chain as a value; GeocodedSpec carries its properties |
| Geocoding.FeatureRoundTrip | sheetsService.js:247-252 | a features response with position `[lon, lat]` gives latitude `lat`, longitude `lon` |
| Geocoding.PosRoundTrip | sheetsService.js:259-260 | the legacy `"lon lat"` text reads back as latitude `lat`, longitude `lon` |
| Geocoding.LegacyReadsPos | sheetsService.js:254-261 | a response without features whose first feature member has a non-empty `pos` string reads its coordinates from that string |
| Geocoding.LegacyRoundTrip | sheetsService.js:254-261 | a legacy response with position `"lon lat"` gives latitude `lat`, longitude `lon` |
| Geocoding.FeaturesPreferred | sheetsService.js:247-254 | when the features shape is present, the legacy shape is ignored |
| Geocoding.NeitherShapeIsNull | sheetsService.js:263 | an object with neither shape gives null |
| Geocoding.NullMemberThrows | sheetsService.js:231-256 | a null first member throws, and the Yandex call then answers null |
| Geocoding.FirstHitSpec | sheetsService.js:172-175 | the loop's answer is null exactly when every query fails, and otherwise is the answer for the first query that succeeds |
| Geocoding.GeocodedSpec | sheetsService.js:168-182 | if every variant fails the primary, the secondary answer for the trimmed address; otherwise the primary answer for the first variant it answers |
| Geocoding.GeocodeAddress | sheetsService.js:168-182 | the loop with early return computes the provider chain |
| SheetRows.Vacancies | sheetsService.js:53-71 | getVacancies as a value; VacanciesFromRows, VacanciesKeepFirstOccurrences and VacanciesFallback carry its properties |
| SheetRows.MatchesVacancy | sheetsService.js:110-112 | a truthy cell equal to the name after lower-casing; MatchingRowsSpec carries its properties |
| SheetRows.MatchingRows | sheetsService.js:110-112 | the data rows that match the vacancy; MatchingRowsSpec carries its properties |
| SheetRows.RecordFields | sheetsService.js:117-121 | the record of one row, lower-cased header to cell; RecordKeys and RecordLastHeaderWins carry its properties |
| SheetRows.ShopOf | sheetsService.js:117-133 | the record of one row with its parsed coordinates; ShopCoordinatesSpec carries the coordinates |
| SheetRows.DataForVacancy | sheetsService.js:86-145 | getDataForVacancy as a value; NoDataCases and MatchingRowsSpec carry its properties |
| SheetRows.ListedCells | sheetsService.js:57-59 | every kept cell is non-blank after trimming |
| SheetRows.ListedCellsMembers | sheetsService.js:57-59 | a text is kept exactly when some row's first cell is that non-blank text |
| SheetRows.KeySetOfIdentity | sheetsService.js:62 | the keys seen under identity are the elements |
| SheetRows.DedupIdentityMembers | sheetsService.js:62 | `[...new Set(s)]` has the same members as `s` |
| SheetRows.VacanciesFromRows | sheetsService.js:53-65 | the vacancies have no duplicates and are exactly the non-blank first cells of the rows after the header |
| SheetRows.VacanciesKeepFirstOccurrences | sheetsService.js:57-62 | the vacancies are the first occurrences in sheet order |
| SheetRows.VacanciesFallback | sheetsService.js:53-71 | a failed read gives the 4-item placeholder list; a missing value list gives no vacancies |
| SheetRows.VacancyColumn | sheetsService.js:100-102 | a found column exists and its lower-cased header contains `ваканс` |
| SheetRows.VacancyColumnIsFirst | sheetsService.js:100-107 | the column is the first such header; none is found exactly when no header contains `ваканс` |
| SheetRows.RecordKeys | sheetsService.js:118-121 | the record's keys are exactly the lower-cased headers |
| SheetRows.RecordLastHeaderWins | sheetsService.js:119-121 | a key holds the cell (or `''`) of the last header that lower-cases to it |
| SheetRows.BuildRecord | sheetsService.js:117-121 | the `forEach` over the headers builds the record |
| SheetRows.ShopCoordinates | sheetsService.js:123-133 | a missing or empty coordinates cell gives (0, 0) |
| SheetRows.ShopCoordinatesSpec | sheetsService.js:124-130 | a cell without a comma gives (0, 0); with one, `parseFloat` of the first two trimmed pieces |
| SheetRows.CoordinatesCellRoundTrip | sheetsService.js:124-127 | the cell `lat,lon` reads back as (`lat`, `lon`) |
| SheetRows.NoDataCases | sheetsService.js:86-144 | a failed read, fewer than 2 rows, or no vacancy header give no shops |
| SheetRows.MatchingRowsSpec | sheetsService.js:110-112 | the kept rows are exactly the data rows whose vacancy cell is non-empty and lower-cases to the lower-cased name, in sheet order |
| SheetRows.GetDataForVacancy | sheetsService.js:74-145 | the loop over the matching rows computes getDataForVacancy |
| JsStrings.TrimStart | index.js:183 | the white space in front removed, as parseInt skips it; LeadingSpaces carries the property |
| JsStrings.Trim | index.js:630 | String.prototype.trim; TrimCharacterized, TrimOfTrimmed and TrimIdempotent carry its properties |
| JsStrings.Join | sheetsService.js:189 | Array.prototype.join; JoinSplit and SplitJoin carry its properties |
| JsStrings.Contains | sheetsService.js:191 | String.prototype.includes; ContainsIff carries its property |
| JsStrings.ParseInt | index.js:183 | parseInt with radix detection; ParseIntOfDecimal and DigitRunOfDigitsThen carry its properties |
| JsStrings.LeadingSpaces | sheetsService.js:185 | the count of leading white space, followed by a non-space |
| JsStrings.TrailingSpaces | sheetsService.js:185 | the count of trailing white space, preceded by a non-space |
| JsStrings.TrimCharacterized | index.js:630 | `trim` gives a trimmed infix surrounded by white space only |
| JsStrings.TrimOfTrimmed | index.js:637 | a trimmed text is its own trim |
| JsStrings.TrimIdempotent | index.js:637 | trimming twice is trimming once |
| JsStrings.TrimAfterSpace | sheetsService.js:185 | a space before a trimmed text is trimmed away |
| JsStrings.Split | sheetsService.js:185 | at least one piece, none containing the separator |
| JsStrings.JoinSplit | sheetsService.js:185 | joining the pieces with the separator gives the text back |
| JsStrings.SplitJoin | sheetsService.js:189 | splitting separator-free pieces joined by the separator gives the pieces back |
| JsStrings.SplitCount | index.js:630 | the number of pieces is one more than the separator's occurrences |
| JsStrings.SplitConcat | sheetsService.js:185 | splitting around a separator splits each side |
| JsStrings.SplitWithoutSeparator | sheetsService.js:185 | a text without the separator is one piece |
| JsStrings.SplitInTwoIff | index.js:630 | there are at least two pieces exactly when the separator occurs |
| JsStrings.ContainsIff | sheetsService.js:191 | `includes` holds exactly when the text occurs at some index |
| JsStrings.DigitsOnly | index.js:158 | `replace(/\D/g, '')` leaves only ASCII digits and never lengthens |
| JsStrings.DigitsOnlyKeepsDigits | index.js:158 | a digit string is unchanged |
| JsStrings.DigitsOnlyAppend | index.js:158 | removing non-digits distributes over concatenation |
| JsStrings.DigitRun | index.js:513 | the leading ASCII digits, followed by a non-digit |
| JsStrings.HexRun | index.js:183 | the leading hexadecimal digits |
| JsStrings.DigitChar | index.js:468 | the digit character of a value below ten |
| JsStrings.DecimalString | index.js:468 | the decimal numeral: non-empty, digits only, no leading zero |
| JsStrings.DecimalRoundTrip | index.js:513-515 | the numeral's value is the number |
| JsStrings.DigitRunOfDigitsThen | index.js:513 | the leading digit run of digits followed by a non-digit is those digits |
| JsStrings.ParseIntOfDecimal | index.js:183 | `parseInt` of a numeral followed by a non-digit, non-`x` text is the number |
| Seqs.Filter | sheetsService.js:59 | never longer, every element passes |
| Seqs.FilterAppend | index.js:414 | filtering distributes over concatenation |
| Seqs.FilterMembers | sheetsService.js:110-112 | an element is kept exactly when it is in the input and passes |
| Seqs.FilterMultiset | index.js:414 | filtering keeps a sub-multiset |
| Seqs.FilterSubsequence | sheetsService.js:110-112 | filtering keeps input order |
| Seqs.SubsequenceExtend | sheetsService.js:216-221 | a subsequence stays one when the sequence grows |
| Seqs.SubsequenceDropLast | sheetsService.js:216-221 | dropping the last element keeps a subsequence |
| Seqs.KeySetPrefix | sheetsService.js:218 | an element's key was seen before exactly when it is not the first of its key |
| Seqs.KeySetSnoc | sheetsService.js:219 | seeing one more element adds its key |
| Seqs.DedupBy | sheetsService.js:215-221 | the seen-set filter and `[...new Set]`; the Dedup rows below carry its properties |
| Seqs.DedupIsFirstOccurrences | sheetsService.js:215-221 | deduplication keeps exactly the first element of each key, in order |
| Seqs.DedupPrefixes | sheetsService.js:215-221 | deduplicating a prefix keeps its first occurrences |
| Seqs.DedupKeySet | sheetsService.js:215-221 | deduplication keeps every key |
| Seqs.DedupKeysDistinct | sheetsService.js:215-221 | no two kept elements share a key |
| Seqs.DedupSubsequence | sheetsService.js:215-221 | the kept elements are in input order |
| Seqs.DedupKeepsHead | sheetsService.js:208-221 | the first element is always kept |
| Seqs.DedupLength | sheetsService.js:215-221 | deduplication never lengthens |
| PhoneHandler.OfferedAfterContact | handlers/phone.js:44-53 | never empty: a thrown error gives the 5-item list, a missing or empty answer the 3-item list, any other answer itself |
| PhoneHandler.Admits | handlers/phone.js:18-27 | the sender's own contact and the START state; ContactStore.OnContact carries its use |
| PhoneHandler.ContactStore.constructor | handlers/phone.js:2 | the store starts empty |
| PhoneHandler.ContactStore.VacancyKeyboard | handlers/phone.js:43-65 | ceil(n/2) rows of one or two buttons, flattening back to the offered list |
| PhoneHandler.ContactStore.OnContact | handlers/phone.js:6-41 | a missing contact, another person's contact, or a sender not at START each leave the store unchanged with their own reply; otherwise the phone is stored, the state becomes CHOOSING_VACANCY and the keyboard lists the offered vacancies |

## Left out

- Telegram transport: the texts and keyboards of `bot.sendMessage` replies, Markdown, polling, `getChatMember` and the error listeners. Only the expiry notice and the application to the managers are kept, as outbox entries, without their text.
- The application message template and its Moscow time stamp, because they are string templating over a clock and a locale.
- The distance formatting (`formatDistance`, `toFixed`, `Math.round`) and the Haversine distance itself, because they are floating point. Distance is a function parameter to `real`.
- `toLowerCase` on Cyrillic text is an uninterpreted parameter `lower`. `parseFloat` is a parameter too. A JSON array given to `parseFloat` becomes `NaN` here, where JavaScript would parse its string form.
- Infinity is not modelled. JSON numbers are exact reals, and the `parseFloat` parameter returns a finite number or `NaN`, never `Infinity`. In JavaScript, `parseFloat("Infinity")` or `parseFloat("1e999")` gives `Infinity`, which is truthy. A coordinates cell such as `Infinity,1` would therefore pass the filter at index.js:414, its distance would be `NaN`, and the sort comparator at index.js:429 would be inconsistent. The model cannot produce that case.
- Failed sends: every awaited `bot.sendMessage` is assumed to succeed. In JavaScript, a rejected send (for example Telegram's 403 after the user blocks the bot) ends the async handler partway through, and three paths then leave a different state:
  - Conversation.ConfirmationStep: handleConfirmation awaits the reply to the user (index.js:725-730) before the deletes at index.js:733-734. A rejection leaves the user in CONFIRMATION with the form, so a repeated "send" posts a second application. The model always deletes both.
  - Conversation.StartStep: `/start` stores the empty form and then awaits the welcome (index.js:83-89) before loadAndShowVacancies. A rejection leaves the old state with an empty form. The model always moves to CHOOSING_VACANCY.
  - Conversation.ShowShops: loadAndShowShops awaits a send at index.js:374, after the caller has set SHOWING_SHOPS. A rejection leaves `availableShops` unset. The model always stores the ranking.
- Asynchrony: each handler runs as one atomic step. `setInterval`, the interleaving of concurrent handlers, and the order in which the `message` handler and a command, contact or location handler run for the same update are not modelled. The `message` handler is its own method, and the bot runs it for every update.
- `/start` and `/cancel` are matched by `onText` anywhere in the text. The model takes the command event as given and does not model the regular-expression match on the text.
- The sheet reads are given as a `Fetch` value: the rows, or that the call threw. The Sheets API plumbing (`init`, `testConnection`, `values.get`) is not modelled. A read that throws is caught inside `getVacancies` and `getDataForVacancy`, so the `catch` branches of `loadAndShowVacancies` and `loadAndShowShops` are unreachable and not modelled. The geocoders `primary` and `secondary` are total, Option-valued parameters that cannot reject, so the `catch` of `geocodeAddress` (sheetsService.js:177-180) is not modelled either.
- `yandexGeocode` and `osmGeocode` are the parameters `primary` and `secondary`. `YandexResult` models how `yandexGeocode` answers: null when `parseYandexCoordinates` throws or returns null.
- A sheet header that lower-cases to `coordinates` would be overwritten by the parsed coordinates in JavaScript. The model keeps the record fields and the coordinates apart.
- A header cell missing from the sheet would make `toLowerCase` throw in `getDataForVacancy`. Rows are sequences of strings here, so headers are never missing.
- handlers/phone.js imports `../config`, `../userStates` and `../googleSheet`, which are not part of this model. The store is two maps, and the vacancy source is the `Fetch` outcome of the call.
- PhoneHandler.ContactStore.OnContact: `getState` for a user never seen is taken to be no state, hence not START, and the contact is refused. The real default lives in `../userStates`. The outer `catch` that answers with an apology is not modelled, because the store calls shown cannot throw here.
- Bot.SessionStore.OnMessage: the `loadAndShowVacancies` and `handleFioInput` paths assume the sender has a form, which the class invariant `Valid` guarantees. Without a form, JavaScript would throw a TypeError.
- ConversationProps.LocationRule: states the new state, the outbox and the stored location. The rest of the new form is given by `Conversation.LocationStep` and `Bot.SessionStore.OnLocation`.
