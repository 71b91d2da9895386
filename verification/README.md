# Verified model of the advertising API gateway

The gateway sits between advertisers' clients and the services that hold campaigns, ad groups, bids, products,
contacts and reports. Most of it passes requests on. This project models the parts that compute something, and
proves what they are for:

- **Rate limiting** (`RateLimitKey`, `RateLimitProtocol`, `RateLimitRuns`, `RateLimitSerial`): one Redis counter with
  an expiry, read and repaired by any number of workers, one command at a time, with other workers, the clock and
  eviction between any two commands.
- **Short ids and the caches over them** (`IdCounter`, `EntityCache`, `BidBinding`, `BindingRace`, `ReportTranslation`,
  `ReportHandlers`, `CampaignSearch`, `Contacts`, `ContactHistory`): numbers drawn from a shared counter, and lookup
  tables that share one key space and must agree with the services behind them.
- **Lists edited in place** (`ListMerge`, `Keywords`, `EntityMerge`, `BidRanges`): merges and filters that remove by
  value, and the fold of bid ranges.
- **Reports** (`ReportRows`, `AdvertiserJoin`): rewriting the ids of every row from batched lookups, and the join of
  requested advertisers with the Koddi advertisers of a user.
- **Dates** (`Calendar`, `CampaignDates`): adding years, and the end dates of a campaign and its ad groups over creates
  and updates.
- **Small helpers with laws** (`DeepMerge`, `Pagination`), and what they share (`Options`, `JsonIds`, `PyDict`, `SortedStrings`).

Code that changes things step by step is modelled by classes, methods and loops; each is proved against a function, and
the properties are lemmas about that function. Concurrent code is a state machine over its single commands, with
properties of every run. Random draws, clocks, gateway answers and catalogues are parameters.

## What the proofs need

Some properties hold only under conditions the code does not give by itself. They are written as predicates:

- `BidBinding.RecordsApart` and `CounterApart`: no UPC reads as an id a record is written under, nor as the counter's
  own key while others are numbered. This is exactly when the cache keeps the ids handed out;
  `BidBinding.RecordOverwritesCollidingUpc` is an input without it.
- `EntityCache.Apart` and `EntityCache.WellKeyed`, for contacts: no contact id reads as a number in use, as the counter's
  key `id` or as `None`; stored ids are different and within the counter. `ContactHistory.NoStrays`: no record lies
  under an id beyond the counter.
- `IdCounter.Undisturbed`: no other call increments the counter between the two commands of a batch. This is exactly
  the condition for disjoint ranges, and `IdCounter.TwoClientsCollide` is a run without it.
- `RateLimitSerial.Serial`: requests do not overlap, and the key neither lapses during one nor is evicted.
- `ReportTranslation.Agrees` and `Answered`: the cache says nothing upstream would not say, and each handler called
  answers the ids it is asked in that run. `ReportHandlers` and `CampaignSearch` say exactly when the handlers do.

## Where the code is not what one would expect

- The halving of a rate-limit counter that lost its TTL also lets the request in, so the bound on counted requests
  is `N + max(limit - 1, N)` for N workers; it is reached.
- `assign_numeric_id_batch` hands back one id per different key, so a list with repeats gets a shorter answer.
- A binding does not notice that another client is numbering the same UPC; the last to write wins.
- The campaign search is asked for one page of 30, once for long ids and once more for what is then still missing.
- An activation whose Koddi id is a text files its group under a key nobody asked for.
- `validate_keyword_targeting` keeps the right modifiers but not always their order.
- `combine_bid_validations` forgets a bound when the next range has none.
- `__parse_contacts` pairs contacts with the short ids of the different contacts, so a repeated contact shifts the ids of
  those after it.
- `add_years` moves a leap day to the first of March even when the target year has a leap day.
- An update of a campaign past its draft is checked against the start date it asks for, which is then not stored.
- An update that moves a set campaign end date earlier is not held against its ad groups.
- Nor is an update that moves the start date of a draft later, and an update without an end date always passes that check.
- `get_campaigns` uses the request's own offset for its first page only.
- A Koddi id 0 and an empty long id count as missing in the report translation.

## Model

| member | source | states |
|---|---|---|
| RateLimitKey.TtlOfLiveKey | app/common/decorators/cid_rate_limited.py:42-62 | a live key answers a TTL below zero exactly when it has no expiry, and at most 60 when its expiry is at most 60 seconds ahead |
| RateLimitProtocol.StepInvariant | app/common/decorators/cid_rate_limited.py:31-75 | every Redis command of every worker, every tick and every eviction keeps the inductive invariant: expiry at most 60 seconds ahead, held counts and load within capacity |
| RateLimitRuns.LoadNeverExceedsCapacity | app/common/decorators/cid_rate_limited.py:31-75 | in every reachable state of any interleaving of N workers the stored count plus the requests bound to reach INCR is at most N + max(limit - 1, N), hence at most limit + 2N |
| RateLimitRuns.BoundIff | app/common/decorators/cid_rate_limited.py:31-75 | what bound to reach INCR means: a request under way counts as bound if and only if no run of any workers turns it away before its INCR, whatever the clock, evictions and the others do |
| RateLimitRuns.CapacityIsReached | app/common/decorators/cid_rate_limited.py:31-75 | that bound is exact: for every limit and every N some interleaving reaches it, through stale SETs or a lost TTL |
| RateLimitRuns.ExpiryStaysWithinAMinute | app/common/decorators/cid_rate_limited.py:33-67 | no expiry is ever more than 60 seconds ahead, so the branch for a TTL above 60 is never taken |
| RateLimitRuns.RejectedOnlyUnderExpiry | app/common/decorators/cid_rate_limited.py:40-75 | a request is rejected only if its own TTL read saw a key with an expiry: a key that lost its TTL locks nobody out |
| RateLimitSerial.RateLimitedClient.Request | app/common/decorators/cid_rate_limited.py:18-77 | the decorated call, command by command with time passing between them, leaves the key and answers as Serve says, whose outcome the rows from RequestRestoresExpiryIff to FirstRequest give; a disabled limiter changes nothing |
| RateLimitSerial.ServeIsASchedule | app/common/decorators/cid_rate_limited.py:31-75 | the undisturbed call is one schedule of the step machine, made of its own commands and ticks of the clock, ending in INCR exactly when it is admitted |
| RateLimitSerial.RequestRestoresExpiryIff | app/common/decorators/cid_rate_limited.py:33-71 | however the key was found, an admitted request leaves it with an expiry if and only if it had not lapsed when its INCR came |
| RateLimitSerial.LostExpiryBelowTheLimit | app/common/decorators/cid_rate_limited.py:39-73 | a key found without its expiry below the limit: the request is admitted, the count goes on from what was there, and the key expires the drawn seconds after the repair |
| RateLimitSerial.LostExpiryAtTheLimit | app/common/decorators/cid_rate_limited.py:39-75 | the same at the limit or above: the count is divided, and the request is admitted unless the limit is 0 |
| RateLimitSerial.UnderExpiry | app/common/decorators/cid_rate_limited.py:40-75 | a key with an expiry at most a minute ahead keeps it; one more is counted below the limit and nothing at it |
| RateLimitSerial.LapsedBeforeIncr | app/common/decorators/cid_rate_limited.py:40-75 | a key that lapses after its TTL was read is created anew by the INCR, with count 1 and no expiry |
| RateLimitSerial.LongExpiryIsCut | app/common/decorators/cid_rate_limited.py:57-75 | an expiry of more than 60 seconds, as Redis rounds it, is cut to the drawn seconds and the count goes on |
| RateLimitSerial.FirstRequest | app/common/decorators/cid_rate_limited.py:33-75 | with no key found, the request creates it with a minute to go and is admitted as the first, unless the limit is 0 |
| RateLimitSerial.RepairThenAdmit | app/common/decorators/cid_rate_limited.py:41-71 | amid any number of workers, the repair of a worker and its INCR leave what that worker held, whole below the limit and divided otherwise, and one more |
| RateLimitSerial.CountIsAdmissionsOfThisLife | app/common/decorators/cid_rate_limited.py:31-72 | over any run of the step machine whose requests do not overlap, with ticks inside requests that do not make the key lapse, the count is the number of admissions since the key was created, at most the limit, and the key expires a minute after its creation |
| RateLimitSerial.AdmissionsInAnyMinute | app/common/decorators/cid_rate_limited.py:31-75 | over any such run no 60-second interval, both ends included, sees more than 2 * limit admissions |
| RateLimitSerial.WorstMinute | app/common/decorators/cid_rate_limited.py:31-75 | some such run does see 2 * limit admissions in a minute |
| IdCounter.CounterPlusOwedIsRequested | app/common/database/async_client.py:274-300 | in every interleaving the counter plus the increments still owed by batches in flight is the total number of ids asked for |
| IdCounter.UndisturbedIdsAreDistinct | app/common/database/async_client.py:292-300 | when no INCR falls between the two commands of a batch, no two calls or keys share an id, and without repeated keys no id is skipped |
| IdCounter.RangesDisjointIffUndisturbed | app/common/database/async_client.py:292-300 | for any lists, over every run: the ranges of numbers reserved are disjoint if and only if no INCR fell on a batch that still owed increments |
| IdCounter.IdsDistinctIffUndisturbed | app/common/database/async_client.py:292-300 | for lists that repeat no key, over every run: the ids handed out are distinct under the same condition |
| IdCounter.OverlapWithoutCollision | app/common/database/async_client.py:298-300 | a list that repeats a key leaves numbers unused, so there ranges can overlap while the ids stay distinct |
| IdCounter.CallsKeepTheirRange | app/common/database/async_client.py:296-300 | the range a call reserved never changes |
| IdCounter.TwoClientsCollide | app/common/database/async_client.py:296-300 | a run of two clients that hands one id to two keys |
| EntityCache.RedisEntity.Mget | app/common/database/async_client.py:179-202 | answers the stored value or nothing for each key, in order |
| EntityCache.RedisEntity.Mset | app/common/database/async_client.py:204-207 | overwrites exactly the given keys |
| EntityCache.RedisEntity.AssignNumericIdBatch | app/common/database/async_client.py:292-300 | the counter grows by the length of the list, each key is bound to its number, and the list handed back has one id per different key |
| EntityCache.UnrepeatedAssignedIds | app/common/database/async_client.py:296-300 | without repeated keys the ids handed back are consecutive, one per key, in the order of the list |
| EntityCache.RepeatedKeysCollapse | app/common/database/async_client.py:298-300 | a repeated key takes the number of its last place, and the answer has the keys once each in order of first occurrence |
| EntityCache.AssignedWellKeyed | app/common/database/async_client.py:292-300 | assigning ids to fresh long ids keeps the key families apart and the ids distinct and within the counter |
| EntityCache.WritingRecordsKeepsIff | app/common/services/lookup_service.py:697-712 | writing records under short ids leaves a numbered long id alone if and only if none of them is written where the long id stands |
| BidBinding.BidManagerService.BindBidsToEntityIds | app/common/services/bid_manager_service.py:173-198 | for any cache and any bids: it fails exactly when a UPC has something cached that is no number, and then writes nothing; otherwise each bid gets its id, in order, and the cache becomes Bound of the old one |
| BidBinding.BidManagerService.BindMissingEntityIds | app/common/services/bid_manager_service.py:200-218 | the UPCs without an id, and only those, are numbered, and the dictionary then holds the ids handed out |
| BidBinding.BidManagerService.BindMissingProducts | app/common/services/bid_manager_service.py:220-249 | writes the records of the products fetched for exactly the UPCs without one; what they are the next three rows say |
| BidBinding.WrittenIsTheCatalog | app/common/services/bid_manager_service.py:229-249 | for any cache and bids, a number gets a record if and only if a UPC without a cached product that the catalog knows was handed it, and the record is the product the catalog has for such a UPC |
| BidBinding.OnlyProductsAreWritten | app/common/services/bid_manager_service.py:229-249 | after a binding each key of the cache holds such a product or what the numbering left there |
| BidBinding.ProductsAreTheCatalogs | app/common/services/bid_manager_service.py:220-249 | with nothing in the way, a UPC without a cached product ends with the product the catalog has for it, and a cached product stays the same |
| BidBinding.BindingIsGetOrAllocate | app/common/services/bid_manager_service.py:173-218 | every UPC is handed an id: the cached one, or the next of the counter in order of first occurrence |
| BidBinding.BindingKeepsIdsIff | app/common/services/bid_manager_service.py:173-249 | the cache has every id handed out afterwards if and only if no UPC reads as an id a record was written under, and none as the key of the counter while others are numbered |
| BidBinding.CounterMovesOnIff | app/common/services/bid_manager_service.py:200-218 | the counter ends at the last id handed out if and only if its own key was not overwritten by a number that is not the last |
| BidBinding.SameIdIffSameUpc | app/common/services/bid_manager_service.py:191-198 | two bids are handed the same id exactly when they have the same UPC, if and only if the cached ids were different and none was among the numbers to be given |
| BidBinding.BindingAgainIff | app/common/services/bid_manager_service.py:173-218 | binding the same bids again hands out the same ids and numbers nothing, whatever the catalog now says, under exactly the condition of BindingKeepsIdsIff |
| BidBinding.KnownProductsAreCached | app/common/services/bid_manager_service.py:220-249 | under that condition, and with no record under "None", every product the gateway knows is cached afterwards |
| BidBinding.RecordOverwritesCollidingUpc | app/common/services/lookup_service.py:697-712 | one input that breaks the condition: the UPC "1" loses its id to its own product record |
| BindingRace.AgreedIffUnraced | app/common/services/bid_manager_service.py:181-218 | bindings by several clients, interleaved: all hand out the id the cache ends with if and only if no UPC is read between another binding finding it missing and writing it |
| ReportTranslation.Translator.GetCurrentIds | app/common/translations/report_translation.py:243-253 | reads the cached long id of each Koddi id and the cached short id of each long id |
| ReportTranslation.AllGroups | app/common/translations/report_translation.py:299-338 | when the handlers called answer what they are asked, there is a group for exactly each id asked for, none says anything untrue, and all that upstream knows is there |
| ReportTranslation.Translator.CacheMissingIds | app/common/translations/report_translation.py:268-297 | writes a link exactly where the cache had no long or short id for an id asked and the group now has one, and leaves every other key |
| ReportTranslation.Translator.BuildTranslation | app/common/translations/report_translation.py:38-87 | the whole translation: result, new cache and number of handler calls, as functions of the old cache; when a handler raises, nothing is cached |
| ReportTranslation.TranslationIsUpstream | app/common/translations/report_translation.py:38-87 | with a truthful cache, and handlers that answer the very ids this run asks them, the result is exactly the upstream mapping on the nonzero ids asked for |
| ReportTranslation.CacheStaysTrue | app/common/translations/report_translation.py:268-297 | whatever was fetched, as long as it is true, the cache still agrees with upstream afterwards |
| ReportTranslation.CacheStaysTrueAndComplete | app/common/translations/report_translation.py:268-297 | when the handlers answered, it also holds every link upstream has for the ids asked |
| ReportTranslation.SecondRunCallsNothing | app/common/translations/report_translation.py:38-87 | once all ids were resolved a second run answers the same, calls no handler and writes nothing |
| ReportTranslation.CallsAreCounted | app/common/translations/report_translation.py:299-338 | the handler for long ids is called once if some group lacks one, the one for short ids once if some group then lacks that, and not again |
| ReportTranslation.NoCallsIff | app/common/translations/report_translation.py:299-338 | no handler is called if and only if the cache has a nonempty long id and a nonzero short id for every id asked |
| ReportTranslation.OtherFamilyAgreesIff | app/common/services/lookup_service.py:510-535 | the Koddi campaign ids written under the same keys keep the cache truthful if and only if each equals the long id its key stands for |
| ReportHandlers.HandleMissingCampaignIds | app/common/translations/report_translation.py:210-241 | fails if and only if some campaign on the page lacks the number in its first external id of the Koddi partner; otherwise the keys are the numbers so named, each with the long and short id of the last campaign naming it |
| ReportHandlers.KoddiExternalIdStandsFirst | app/common/translations/report_translation.py:227-233 | the external id taken is the one at the first place with the Koddi partner, and none is taken if and only if no place has it |
| ReportHandlers.HandleMissingAdGroupLongIds | app/common/translations/report_translation.py:147-175 | a group for exactly the ids with an activation, holding the long and short id of the first one |
| ReportHandlers.HandleMissingAdGroupShortIds | app/common/translations/report_translation.py:177-208 | the groups of the activations fetched by the long ids already known, each filed under the Koddi id as it stands there, number or text, the last activation of an id counting; it fails exactly when some activation has no Koddi id that spells a number; nothing is fetched without a long id |
| ReportHandlers.CampaignHandlerAnswersIff | app/common/translations/report_translation.py:210-241 | with a page of true campaigns asked for, the handler answers the ids it is asked if and only if the page holds every one upstream knows |
| ReportHandlers.AdGroupLongHandlerAnswersIff | app/common/translations/report_translation.py:147-175 | the handler for long ids answers the ids it is asked if and only if each of them is fetched truly |
| ReportHandlers.AdGroupShortHandlerAnswersIff | app/common/translations/report_translation.py:177-208 | when upstream answers every long id, the handler for short ids answers the ids it is asked if and only if every activation carries its Koddi id as a number |
| ReportHandlers.AnsweringLongIdsFetchesAll | app/common/translations/report_translation.py:182-199 | an upstream that answers each long id it is asked for with its activation has answered for every missing id it knows, when no two Koddi ids share a long id |
| ReportHandlers.TextIdGoesAstray | app/common/translations/report_translation.py:199-206 | one activation with a text for a Koddi id: the number asked for stays without a group, and the text gets one |
| CampaignSearch.PagedHandlerAnswersIff | app/common/translations/report_translation.py:215-241 | with a search that answers the first page of the campaigns asked for, the handler answers what it is asked if and only if upstream knows no more of the ids than a page holds |
| CampaignSearch.CampaignHandlerAnswersUpToThirty | app/common/model/downstream/campaign_service.py:196-197 | which for the page size of the code is at most 30 |
| CampaignSearch.CampaignTranslationIff | app/common/translations/report_translation.py:103-115 | a whole translation of campaigns is the upstream mapping if and only if what the first search leaves over, with the ids whose short id alone is missing, fits a page: the second search asks for those again |
| CampaignSearch.SixtyFromAnEmptyCache | app/common/translations/report_translation.py:103-115 | so from an empty cache at most 60 known campaigns |
| Keywords.ModifierList.Remove | app/common/services/keyword_service.py:160-161 | removes the first entry equal to the given one |
| Keywords.MergeKeywords | app/common/services/keyword_service.py:150-165 | what is left of the old list, then the live updates; unmentioned entries always stay in order, and of a list with distinct keywords nothing else stays |
| ListMerge.MergedDistinct | app/common/services/keyword_service.py:150-165 | merging lists of distinct keys gives a list of distinct keys |
| ListMerge.MergedIsAMapUpdate | app/common/services/keyword_service.py:150-165 | an entry is in the merged list exactly when it is the live update of its key, or the old entry of a key no update mentions |
| Keywords.ValidateKeywordTargeting | app/common/services/keyword_service.py:167-209 | the edited list is exactly Filtered of the old one; the details are about the dropped places in order, each with its keyword and the first reason against it; the two rejections change nothing |
| Keywords.FilterStep | app/common/services/keyword_service.py:178-207 | what visiting one more modifier does, although remove drops the first equal entry and not the one visited |
| Keywords.FilterLeavesFirstOccurrences | app/common/services/keyword_service.py:178-207 | as a multiset, the first occurrence of each keyword where eligible with 0 < modifier < budget; entries left plus details is the old length |
| Keywords.FilteredKeywordsAreDistinct | app/common/services/keyword_service.py:178-207 | no two modifiers left share a keyword, and each left is eligible and within bounds |
| Keywords.OrderKeptIffPlacesAgree | app/common/services/keyword_service.py:178-207 | the first occurrences are left in their order if and only if, for any two of them, the one that comes first also has its last equal entry first |
| Keywords.RemovingByValueReorders | app/common/services/keyword_service.py:180-183 | one list where they are not: "a", "b", "a" leaves "b", "a" |
| Keywords.UpdatedKeywords | app/common/services/keyword_service.py:128-148 | merging and then filtering lists of distinct keywords leaves the acceptable merged modifiers, in order |
| EntityMerge.EntityList.RemoveIfPresent | app/common/services/bid_manager_service.py:501-502 | drops the first entity equal by value, which need not be the same object |
| EntityMerge.MergeEntities | app/common/services/bid_manager_service.py:489-507 | for any lists, shared entities included: every update using the base bid carries it and no other bid changes; the old entities no update mentions stay in order, then the live updates follow |
| BidRanges.CombinedIsBothIff | app/common/services/bid_manager_service.py:424-445 | combining two ranges accepts exactly what both accept, for all amounts and counts, if and only if the second sets every bound the first sets, or the result accepts nothing |
| BidRanges.BuildValidationRequest | app/common/services/bid_manager_service.py:397-422 | on its own arguments: which placements and campaign type count, that the request accepts a bid if and only if each of these placements in the table of the type accepts it, and exactly when and how building it fails |
| BidRanges.FoldForgetsBeforeTheGap | app/common/services/bid_manager_service.py:447-456 | a fold accepts exactly what meets every bound after the last missing one |
| BidRanges.FoldIsTheIntersectionIff | app/common/services/bid_manager_service.py:447-456 | a fold accepts exactly the intersection if and only if every bound before the last missing one is implied by a bound after it |
| BidRanges.FoldedIsTheIntersectionIff | app/common/services/bid_manager_service.py:397-456 | over all four fields and any list of ranges: the folded request accepts exactly what every range accepts, for all amounts and counts, if and only if no gap forgets a bound that mattered, or the request accepts nothing |
| BidRanges.RequestIsTheIntersection | app/common/utils/bid_ranges.py:6-47 | for every campaign type and any placement list, repeated and unknown ones included, a bid satisfies the request exactly when it satisfies the range of each known placement |
| BidRanges.MissingBoundErases | app/common/services/bid_manager_service.py:447-456 | a range without a minimum erases the minimum before it, but not one after it |
| ReportRows.GetResponseIds | app/common/services/report_service.py:384-411 | per dimension, exactly the ids some row has in its columns; fails exactly when an id cell cannot be a set member |
| ReportRows.Row.TranslateItemIds | app/common/services/report_service.py:413-437 | in place: each of the five id columns ends as the answer of its own table for what it held at first, every other column as it was |
| ReportRows.Row.AddAdvertiserIds | app/common/services/report_service.py:439-455 | adds the nonzero short ids of the advertiser, and fails exactly when the advertiser is not among the brands |
| ReportRows.ShortIdsInOrder | app/common/services/report_service.py:439-455 | the list added has the nonzero short ids of the groups, at increasing places and none left out |
| ReportRows.TranslateReport | app/common/services/report_service.py:344-376 | succeeds exactly when every id cell can be a key and every advertiser is among the brands; then each id column ends as the answer of its own translation for the ids the report has in it, or null, advertisers as the short id of their first group, and the warnings name exactly the ids without an answer |
| ReportRows.RewrittenCellByCell | app/common/services/report_service.py:413-455 | cell by cell: each id column is looked up once in its own table, the advertiser list is added, every other cell and column stays |
| ReportRows.WarnedIffMissing | app/common/translations/report_translation.py:340-387 | a dimension warns of an id exactly when it was collected and has no external id |
| ReportRows.NullIffWarned | app/common/services/report_service.py:347-376 | after the batch every id column holds the external id of its value or null, and an id turned null exactly when the warnings of its dimension name it |
| ReportRows.WarningsNameRealIds | app/common/translations/report_translation.py:370-387 | a warning names only ids some row has in a column of its dimension |
| AdvertiserJoin.GetAdvertisersAndIdMap | app/common/controllers/report.py:54-63 | each brand maps to the short id of the last requested advertiser of that brand |
| AdvertiserJoin.LastShortIdIsTheLast | app/common/controllers/report.py:60-61 | which is the one after which no advertiser of the brand comes |
| AdvertiserJoin.BuildUserKoddiIdDict | app/common/controllers/report.py:83-96 | each brand maps to the Koddi ids of the advertisers passing the agency filter, once per occurrence of the brand, in order |
| AdvertiserJoin.BuildKoddiIdDict | app/common/controllers/report.py:98-131 | each Koddi id maps to its list of the join, and no list is empty |
| AdvertiserJoin.JoinIsTheTriples | app/common/controllers/report.py:98-131 | that list is the naive join: in order, one group per triple of a requested advertiser, a Koddi advertiser with that id passing the filter, and an occurrence of the brand |
| AdvertiserJoin.KeyIffMatched | app/common/controllers/report.py:119-129 | a Koddi id is a key exactly when some such triple exists |
| SortedStrings.SortedSetIsAscending | app/common/services/contact_service.py:106-106 | sorted(set(...)) is strictly ascending with the same elements |
| SortedStrings.AscendingIsCanonical | app/common/services/contact_service.py:106-106 | and is the only such list |
| Contacts.ContactService.ParseContacts | app/common/services/contact_service.py:62-128 | for any fetched contacts, repeated ones included: the new cache, the returned contacts, and exactly when a contact is invalid |
| ContactHistory.OwnIdsIffRepeatsComeLast | app/common/services/contact_service.py:72-120 | every contact returned carries its own short id if and only if contacts already seen are listed only after all the different ones |
| ContactHistory.AllReturnedIffUnrepeated | app/common/services/contact_service.py:72-120 | every contact fetched is returned with its own short id if and only if none is repeated |
| ContactHistory.ParsedGathers | app/common/services/contact_service.py:95-126 | one call without repeats adds the account to the sorted list of each of its contacts and leaves every other contact alone |
| ContactHistory.ReturnedMirrorsTheCache | app/common/services/contact_service.py:95-126 | each returned contact has the address it was fetched with and mirrors the record the cache then has for it: same short id, type, and sorted accounts |
| ContactHistory.HistoryGathers | app/common/services/contact_service.py:62-128 | over any history, a contact stores exactly its first accounts and all it was fetched for, sorted and without repetition; short ids never change |
| Calendar.AddYearsIsValid | app/common/utils/date_utils.py:60-84 | adding years fails exactly outside the years 1 to 9999, and otherwise gives a valid date |
| Calendar.AddYearsKeepsOrder | app/common/utils/date_utils.py:60-84 | adding years keeps the strict order of dates, except that a leap day and the day after it become one |
| Calendar.PlusKeepsOrderIff | app/common/utils/date_utils.py:60-84 | on instants the order is kept if and only if it is not a leap day against an earlier time of the first of March after it |
| Calendar.TwoYearsLater | app/common/utils/date_utils.py:60-84 | two years on is 731 days when a leap day lies between, and 730 otherwise |
| Calendar.DayNumbersFollowTheCalendar | app/common/utils/date_utils.py:60-84 | day numbers order valid dates as the calendar does |
| CampaignDates.AcceptedSpan | app/v2/utils/campaign_validator.py:25-28 | an accepted dated campaign spans less than 731 days, and any span below 730 days is accepted |
| CampaignDates.RelatedAdGroupsHaveValidEndDate | app/v2/utils/campaign_validator.py:88-95 | true exactly when every ad group fits the end date: dated unless it has ended, and never later |
| CampaignDates.ValidateDatesWithAdGroups | app/v2/utils/campaign_validator.py:73-86 | which updates of a campaign are rejected and why; the ad groups count only while the campaign has no end date |
| CampaignDates.UpdatesOnlyMoveForward | app/v2/utils/ad_group_validations.py:15-21 | through updates alone an ad group never goes back to an earlier status, never enters or leaves review and never reaches an end, and a draft is scheduled or active before it is paused |
| CampaignDates.StepKeepsContained | app/v2/utils/ad_group_validations.py:94-119 | each accepted create, update or status change that moves no set campaign end earlier keeps every live ad group dated and within its campaign |
| CampaignDates.RunsKeepContained | app/v2/utils/ad_group_validations.py:95-163 | so does every run of such steps |
| CampaignDates.UpdateKeepsContainedIff | app/v2/utils/campaign_validator.py:73-86 | an update of a campaign keeps containment whatever its ad groups are if and only if it moves no set end date earlier |
| CampaignDates.FirstEndAsksMore | app/v2/utils/campaign_validator.py:88-95 | a first end date is accepted exactly when the live ad groups are contained and the ended dated ones fit too |
| CampaignDates.CreateAdGroupAcceptedIff | app/v2/utils/ad_group_validations.py:24-40 | exactly when a new ad group is accepted, and that an ended, paused or failed one is rejected for its status whatever its dates |
| CampaignDates.UpdateAdGroupAcceptedIff | app/v2/utils/ad_group_validations.py:95-163 | exactly when an update of an ad group passes all its checks, for any ad group, dates, status, placements, keywords and headline |
| CampaignDates.UpdateCampaignAcceptedIff | app/v2/utils/campaign_validator.py:73-95 | exactly when an update of a campaign passes: without an end date always |
| CampaignDates.RunsKeepInTurn | app/v2/utils/ad_group_validations.py:95-163 | over any run of accepted steps that moves no start date of a draft later, no ad group starts before its campaign or ends before it starts |
| CampaignDates.UpdateKeepsInTurnIff | app/v2/utils/campaign_validator.py:73-86 | an update that respects the two years keeps this whatever the ad groups are if and only if the campaign is past its draft or starts no later |
| CampaignDates.EndedIsFinal | app/v2/utils/ad_group_validations.py:134-137 | no accepted create or update changes an ad group that has ended; that status changes made elsewhere do not either is taken for granted |
| CampaignDates.RunsKeepShort | app/v2/utils/campaign_validator.py:25-28 | over any run a campaign spans less than 731 days whenever it is dated, provided no update past the draft names a later start date than the stored one |
| CampaignDates.UpdateKeepsShortIff | app/v2/utils/campaign_translations.py:113-126 | an update past the draft is checked against a start date that is not kept: the span stays below 731 days, whatever end date is accepted, if and only if two years after the date asked for is within 731 days of the date kept |
| DeepMerge.DeepMerge | app/common/utils/deep_merge.py:1-8 | the loop over the keys of the right side, which recurses, ends with the merge of both |
| DeepMerge.MergeAt | app/common/utils/deep_merge.py:1-8 | what stands at any path: beyond the first place where the two are not both dictionaries the right side wins if it has anything there; before it, the merge of both |
| DeepMerge.EmptyIsIdentity | app/common/utils/deep_merge.py:1-8 | the empty dictionary is an identity on both sides |
| DeepMerge.MergeIsIdempotent | app/common/utils/deep_merge.py:1-8 | merging a tree with itself gives it back |
| DeepMerge.RepeatedRightIsAbsorbed | app/common/utils/deep_merge.py:1-8 | merging the same right side twice is merging it once |
| DeepMerge.CoversIffAbsorbs | app/common/utils/deep_merge.py:1-8 | the result is the right side exactly when the right side covers the left |
| DeepMerge.AssociativeIff | app/common/utils/deep_merge.py:1-8 | merging three trees is associative if and only if no leaf stands between two dictionaries of which the right does not cover the left |
| DeepMerge.SameShapesAssociate | app/common/utils/deep_merge.py:1-8 | so trees that agree on which shared paths are dictionaries associate |
| DeepMerge.LeafBetweenDictionaries | app/common/utils/deep_merge.py:1-8 | three trees that do not |
| Pagination.GetCampaigns | app/common/gateways/campaign_service_gateway.py:273-290 | what the loop collects and how many requests it makes, from any offset and with any page size for which it ends |
| Pagination.EmptyPagesNeverEnd | app/common/gateways/campaign_service_gateway.py:283-288 | for the others it does not end: with page size 0 and more announced, every later page is empty and announces more |
| Pagination.FromTheStart | app/common/gateways/campaign_service_gateway.py:273-290 | from offset 0 the whole collection, once and in order, in max(1, ceil(total / size)) requests |
| Pagination.WholeIffFromTheStart | app/common/gateways/campaign_service_gateway.py:273-290 | for campaigns that differ, the collection comes back whole and in order if and only if the offset is 0 or there is nothing to collect |
| Pagination.RestIffNoPageFollows | app/common/gateways/campaign_service_gateway.py:273-290 | the rest of the collection from the offset on comes back if and only if the offset is 0 or no page follows the first |

## Left out

- Redis connection errors, timeouts, retries and locks: every command answers.
- JSON encoding: a stored record comes back as the record that was stored, and one that does not parse as missing.
- A cached short id comes back from Redis as text; the model reads it as the number it spells. What anything else under a
  long id is looked up as is left open, since the call then fails; for ad groups it reads as no id, and
  for campaigns the model takes the same.
- Authorisation, user and brand access checks, and the parsing of tokens.
- Rounding of bids and budgets: amounts are reals.
- Time zones: dates are instants in UTC, after `parse_date`.
- HTTP errors other than "not found" from the services behind the handlers, which end the request.
- The key prefix of an entity type: each cache is the part of the key space under one prefix.
- ContactHistory.HistoryGathers: takes the calls of a history one after the other, each with contacts that do not repeat.
- ReportRows.TranslateReport: which rows were already rewritten when an unknown advertiser ends the loop is not stated, since the rows are dropped with the request.
- BindingRace.AgreedIffUnraced: the numbers of a binding are taken in one step, what two steps do is the subject of `IdCounter`; UPCs that read as other keys are that of `BidBinding`.
- CampaignSearch.CampaignTranslationIff: every campaign has a short id and none the Koddi id 0; upstream lists its campaigns in one order.
- ReportHandlers.HandleMissingAdGroupShortIds: which texts spell a number is a parameter; what a group keeps besides its long and short id is left out.
- Pagination.GetCampaigns: the collection does not change between requests.
- BidRanges.BuildValidationRequest: brand codes and the flag for valid entities are passed through and left out.
- ReportRows.GetResponseIds: the ids of a dimension are a set, and the order of the ids inside a warning is left out.
- The checks of targets, day parting and base bids of an ad group, and of billing contacts and addresses.
- View models, enumerations of statuses and publication states, request validation of reports.
- The older synchronous Redis client, which repeats the asynchronous one.
