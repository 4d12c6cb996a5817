# Recipe app translation core, in Dafny

This project models the two parts of the recipe web app that hold real logic.

- **The translation endpoint** (`api/translate.js`). This is a serverless `POST` handler. It translates a batch of strings. It first answers what it can from a process-wide cache: a JavaScript `Map` capped at 2000 entries that drops its oldest-inserted key when full. It sends the remaining texts to DeepL. If DeepL throws, it sends them to LibreTranslate one request per text. It then writes the output back into the response slots, in order, and into the cache.
- **The browser helpers** (`js/script.js`):
  - `translateMany`, which repeats the same split-and-merge against a browser-side cache under `es|text` keys and never fails;
  - `translateRecipe` and `translateTitles`, which pack recipe text into one batch;
  - `escapeHtml` and `dedupByTitle`;
  - the recipe cache by id;
  - the five-minute query cache and the keys of the two search boxes;
  - the saved-recipe list operations: upsert, `isSaved`, delete and the favourite toggle;
  - the form parsers and the "Mis recetas" / "Favoritas" search filters.

Modules, one per concern:

| file | module | models |
|---|---|---|
| `wrappers.dfy` | `Wrappers` | `Option` |
| `seqs.dfy` | `Seqs` | `Array.prototype.filter` and subsequences |
| `text.dfy` | `Text` | `toLowerCase` (ASCII), `trim`, `split`, `join`, `includes`, and the comma and line parsers |
| `html.dfy` | `Html` | `escapeHtml`, with entity decoding as its inverse |
| `batch.dfy` | `Batch` | cache keys, and the hit/miss split and write-back merge that both sides share |
| `translate_api.dfy` | `TranslateApi` | the bounded cache (class `ResponseCache`), the providers and `handler` |
| `recipes.dfy` | `Recipes` | the recipe record, `dedupByTitle`, `cacheRecipes` (class `RecipeCache`) and the search filters |
| `saved_recipes.dfy` | `SavedRecipes` | the saved list (class `RecipeStore`) and the new-recipe and edit forms |
| `query_cache.dfy` | `QueryCache` | `setQueryCache` and `getQueryCache` (class `ResultCache`) and the search keys |
| `client_translation.dfy` | `ClientTranslation` | `translateMany` (class `TranslationCache`), `translateRecipe` and `translateTitles` |

The model replaces the outside world with parameters:

- **Providers.** A `DeepLReply` value stands for the DeepL request: no response, or a status and the parsed `translations` field. A function `nat -> LibreReply` gives the outcome of the k-th LibreTranslate request. The API key is a string parameter, read once per request.
- **The client's request.** It is a `Reply`: thrown, or answered with the `translations` field of the parsed body.
- **The clock.** `Date.now()` is an integer parameter.
- **The request body.** It arrives as an already-parsed `Body`. A body that is not JSON is `None`, and then reads as `{}`.

The general description of the system differs from the code in several places. The model follows the code:

- **No health tracker, timeouts or identity check on the server.** The code has no health or circuit-breaker tracking, no timeouts on the server side, no identity fallback and no "output equals input" check.
- **The empty oldest key.** When the cache is full, eviction is skipped if the oldest key is the empty string (`if (first)`).
- **DeepL output length.** DeepL's output can be shorter or longer than the batch sent. A shorter output leaves slots unset (`null` in JSON). A longer one is cached under `${target}|undefined`.
- **No per-item fallback for DeepL.** DeepL never falls back per item. A `null` entry in its `translations` makes it throw, which sends the whole batch to LibreTranslate.

## Model

| member | source | states |
|---|---|---|
| Batch.CacheKey | api/translate.js:32 | The key is the target, a vertical bar, then the text, with nothing normalised. |
| Batch.CacheKeySameTarget | api/translate.js:32-34 | For one target language, two texts get the same cache key exactly when they are identical: no normalisation. |
| Batch.CacheKeyInjective | api/translate.js:32 | When neither target contains a vertical bar, equal keys mean equal (target, text) pairs, in both directions. |
| Batch.CacheKeyCollision | api/translate.js:32 | A target containing a vertical bar can share a key with another target: target `es`+bar+`a` with text `b` collides with target `es` and text `a`+bar+`b`. |
| Batch.Select | api/translate.js:31-36 | `need` holds exactly one entry per cache miss. |
| Batch.SelectAtRank | api/translate.js:35 | The miss at position `i` sits in `need` at its rank, the number of misses before it. |
| Batch.SelectMember | js/script.js:42-46 | Every text in `need` is an item that missed the cache. |
| Batch.Positions | api/translate.js:35 | Every entry of `idx` is an in-range position of a miss; there is one per miss. |
| Batch.SelectPositionsSplit | api/translate.js:28-36 | `need` and `idx` have equal length; `need[k] == items[idx[k]]`; `idx` is strictly increasing; every miss appears in `idx` at its rank. |
| Batch.MissFlags | api/translate.js:33-35 | Position `i` is a miss exactly when the key of `items[i]` is not in the cache. |
| Batch.Fill | api/translate.js:51-55 | The write-back loop keeps the number of slots; `FillByRank` says what each slot holds. |
| Batch.FillByRank | api/translate.js:51-55 | After write-back, the miss of rank `r` holds output `r` when the output is that long; every other slot is unchanged. |
| TranslateApi.EvictOldest | api/translate.js:7-11 | Below capacity, eviction changes nothing. |
| TranslateApi.Put | api/translate.js:6-13 | After `cacheSet(key, value)`, `key` maps to `value`. |
| TranslateApi.EvictWellFormed | api/translate.js:7-11 | Eviction keeps the key order and the map in step: each key once, the same key set. |
| TranslateApi.PutWellFormed | api/translate.js:6-13 | `cacheSet` keeps the key order and the map in step. |
| TranslateApi.PutBounded | api/translate.js:2-13 | A cache with at most 2000 entries still has at most 2000 after `cacheSet` of a non-empty key. |
| TranslateApi.PutAddsNothingElse | api/translate.js:6-13 | `cacheSet` adds no other key and changes no other value. |
| TranslateApi.PutKeeps | api/translate.js:6-13 | Every other key keeps its value, except the oldest key of a full cache. |
| TranslateApi.PutBelowCapacity | api/translate.js:7-12 | Below capacity, `cacheSet` is a plain `Map.set`. |
| TranslateApi.PutEvictsOldest | api/translate.js:7-10 | A full cache loses its first-inserted key, unless that key is empty or is the one written. |
| TranslateApi.EmptyOldestKeyOverflows | api/translate.js:9-10 | With `""` as the oldest key of a full cache, nothing is evicted and the cache grows to 2001 entries. |
| TranslateApi.PutOrder | api/translate.js:12 | Below capacity, an existing key keeps its place in insertion order and a new key goes last. |
| TranslateApi.PutAll | api/translate.js:51-55 | After a run of `cacheSet` calls, the last write is visible. |
| TranslateApi.PutAllWellFormed | api/translate.js:51-55 | A run of `cacheSet` calls keeps the state well formed, and keeps the bound when no key is empty. |
| TranslateApi.RewriteDoesNotRefresh | api/translate.js:6-13 | Rewriting the oldest key does not refresh its age: two new keys after it evict it. |
| TranslateApi.PutAllSize | api/translate.js:51-55 | Below capacity, each write adds at most one entry. |
| TranslateApi.PutAllRetains | api/translate.js:51-55 | Below capacity, no key present before a run of writes is lost. |
| TranslateApi.PutAllWritten | api/translate.js:51-55 | Below capacity, every key written in a run is present afterwards. |
| TranslateApi.PutAllWrittenBefore | api/translate.js:51-55 | A key written before the last write of a run survives it, below capacity. |
| TranslateApi.ResponseCache.constructor | api/translate.js:2 | The cache starts empty and well formed. |
| TranslateApi.ResponseCache.Get | api/translate.js:5 | `cacheGet` returns a value exactly when the key is stored, and that value. |
| TranslateApi.ResponseCache.Set | api/translate.js:6-13 | The new state is `Put` of the old one. For a non-empty key it keeps the cache well formed and within 2000 entries. |
| TranslateApi.TranslateDeepL | api/translate.js:69-101 | It throws (`None`) exactly when the key is missing, the request fails, the status is not ok, or an entry is `null`. Otherwise it returns one string per entry, `""` where `text` is missing. |
| TranslateApi.LibreItem | api/translate.js:108-118 | Each item is the returned `translatedText`, or the original text when the request throws or the field is absent. |
| TranslateApi.TranslateLibre | api/translate.js:104-121 | One output per input, in order, each as `LibreItem` says. |
| TranslateApi.Providers | api/translate.js:40-48 | The provider is `"deepl"` exactly when DeepL does not throw, with its output. Otherwise it is `"libre"`, with one item per text. |
| TranslateApi.Translate | api/translate.js:39-48 | The method computes `Providers`: DeepL first, LibreTranslate only when DeepL throws. |
| TranslateApi.Writes | api/translate.js:51-55 | One `cacheSet` per provider output. |
| TranslateApi.Partition | api/translate.js:28-36 | Hits fill their slot with the cached value; `need` and `idx` are the misses and their positions. |
| TranslateApi.ReplayedIsPutAll | api/translate.js:51-55 | The first `k` loop iterations perform the first `k` writes, in order. |
| TranslateApi.WriteBack | api/translate.js:51-55 | The cache ends as the writes in order, still bounded. Output `k` fills slot `idx[k]`. |
| TranslateApi.Serve | api/translate.js:27-61 | One slot per item. Hits come from the cache. With no misses the provider is `"cache"` and the cache is unchanged. Otherwise misses get the provider's output by rank (unset past its end) and the cache gets the writes. |
| TranslateApi.Status | api/translate.js:17-59 | 405 exactly for the refused method, 400 exactly for the missing texts, 200 exactly for a translated batch. |
| TranslateApi.BodyOf | api/translate.js:21 | A parsed body is used as it is; a body that is not JSON reads as `{}`, every field absent. |
| TranslateApi.Items | api/translate.js:22 | An array `texts` is the batch; otherwise a non-empty `text` is a one-item batch, and anything else is an empty batch. |
| TranslateApi.Target | api/translate.js:21 | `target` as given, `"es"` when absent. |
| TranslateApi.Handle | api/translate.js:15-61 | Status 405 exactly for any method but `POST`; 400 exactly for a `POST` whose batch is empty; 200 otherwise. The cache is unchanged on both errors. A 200 answer is as `Serve` states. |
| TranslateApi.RepeatIsAllHits | api/translate.js:31-38 | After a batch is translated in full and written back below capacity, the same batch has no misses. |
| Html.EscapeHtml | js/script.js:8-10 | The output holds no raw `<`, `>`, `"` or `'` and is never shorter. |
| Html.UnescapeEntity | js/script.js:8-10 | Each of the five entities decodes to its character. |
| Html.EscapeRoundTrip | js/script.js:8-10 | Decoding the escaped text gives the text back: nothing but the five characters is changed. |
| Html.EscapeIdentity | js/script.js:8-10 | A text is left unchanged exactly when it holds none of `&<>"'`. |
| Text.Lower | js/script.js:405 | Lower-casing keeps the length (true of the ASCII mapping modelled; see "Left out"). |
| Text.Trim | js/script.js:399 | The result has no white space at either end. A trimmed input is returned as it is. The result is empty exactly when the input is all white space. |
| Text.TrimStartSuffix | js/script.js:352 | The left trim removes a leading run of white space and nothing else. |
| Text.TrimEndPrefix | js/script.js:352 | The right trim removes a trailing run of white space and nothing else. |
| Text.TrimSurrounded | js/script.js:399 | White space on both sides of a trimmed, non-empty string is all that `trim` removes. |
| Text.SplitOn | js/script.js:443 | `split` gives at least one piece, and no piece holds the separator. |
| Text.JoinSplit | js/script.js:443 | Joining the pieces with the separator gives the string back. |
| Text.Join | js/script.js:443-450 | No items join to `""`; otherwise the result starts with the first item. `JoinSplit` makes it the inverse of `SplitOn`. |
| Text.Clean | js/script.js:443 | `map(trim).filter(Boolean)` gives only trimmed, non-empty pieces. |
| Text.ParseCommaList | js/script.js:443 | Parsed ingredients are trimmed, non-empty and free of commas. |
| Text.ParseCommaListJoin | js/script.js:443-450 | Parsing the `", "`-joined list of trimmed, comma-free, non-empty items gives the list back. |
| Text.ParseCommaListTrim | js/script.js:541-548 | Trimming the field before splitting it changes nothing, and an all-white-space field gives no ingredients. |
| Text.ParseCommaListIdempotent | js/script.js:443-450 | Parsing, joining and parsing again gives the first parse. |
| Text.ParseLines | js/script.js:354-355 | Every parsed line is non-empty, trimmed and free of line breaks. |
| Text.CleanStripCR | js/script.js:354-355 | A trailing `\r` on a piece does not change the cleaned list. |
| Text.ParseLinesIgnoresCR | js/script.js:354-355 | Splitting on `/\r?\n/` and cleaning is the same as splitting on `\n` and cleaning. |
| Text.ParseLinesJoin | js/script.js:261 | Parsing the `\n`-joined list of trimmed, single-line, non-empty items gives the list back. |
| Text.Contains | js/script.js:514-515 | A string contains only what is no longer than itself, and contains each of its prefixes. |
| Text.ContainsIff | js/script.js:514 | `includes` holds exactly when the needle occurs at some position. |
| Seqs.Filter | js/script.js:524 | `filter` never lengthens. |
| Seqs.FilterMember | js/script.js:524 | An element is kept exactly when it is in the input and passes the test. |
| Seqs.FilterSubsequence | js/script.js:524 | `filter` keeps the input's order. |
| Seqs.FilterUpdate | js/script.js:601 | Replacing an element that fails the test by another that fails it does not change the filtered list. |
| Seqs.FilterAppend | js/script.js:601 | Appending an element that fails the test does not change the filtered list. |
| Seqs.SubsequenceTrans | js/script.js:524-528 | A subsequence of a subsequence is a subsequence. |
| Recipes.Dedup | js/script.js:12-20 | Reference definition: a record is kept exactly when no earlier record has its lower-cased title. The lemmas below state what it keeps. |
| Recipes.TitleKeys | js/script.js:15 | Every record's lower-cased title is among the keys. |
| Recipes.DedupByTitle | js/script.js:12-20 | The seen-set loop computes the reference `Dedup`: keep a record exactly when no earlier record has its key. |
| Recipes.DedupSubsequence | js/script.js:12-20 | The result keeps the input's order: it is a subsequence. |
| Recipes.DedupKeys | js/script.js:12-20 | Every title key of the input survives. |
| Recipes.DedupDistinct | js/script.js:12-20 | No two kept records share a lower-cased title. |
| Recipes.DedupKeepsFirst | js/script.js:12-20 | The first record with each key is kept. |
| Recipes.LastWithId | js/script.js:25 | Gives the last position with that id, or `-1` when there is none. |
| Recipes.CachedLookup | js/script.js:25 | After `cacheRecipes`, a non-empty id maps to its last record in the batch. Any other id keeps its old entry. |
| Recipes.RecipeCache.CacheRecipes | js/script.js:24-25 | The new map is the fold of `Map.set` over records with a truthy id. |
| Recipes.FilterText | js/script.js:504 | The normalised filter is empty exactly when the typed text is all white space. |
| Recipes.Matches | js/script.js:514-515 | The empty filter matches every record, as `includes("")` does. |
| Recipes.SearchRecipes | js/script.js:513-516 | A record is kept exactly when the filter is empty, or its lower-cased title or comma-joined ingredients contain it; order is kept. |
| Recipes.MisRecetas | js/script.js:509-516 | The "Mis recetas" grid: exactly the saved records that match, in the order of the date-sorted list it is given. |
| Recipes.Favoritas | js/script.js:521-528 | The "Favoritas" grid: the saved favourites that match, in order. |
| SavedRecipes.IndexOfId | js/script.js:121 | `findIndex`: the first position with the id, or `-1` when there is none. |
| SavedRecipes.SavedIndex | js/script.js:122 | `isSaved` holds exactly when `findIndex` finds the id. |
| SavedRecipes.Upserted | js/script.js:121 | The record written is in the list, which grows by at most one. |
| SavedRecipes.Toggled | js/script.js:589-591 | The list keeps its length and every position keeps its id. |
| SavedRecipes.WithoutId | js/script.js:601 | Delete keeps exactly the records with another id, in order; the id is then not saved. |
| SavedRecipes.UpsertFinds | js/script.js:121 | After an upsert the id is saved, and its first record is the one written. |
| SavedRecipes.IndexOfIdFirst | js/script.js:121 | The first position with the id is `findIndex`'s answer. |
| SavedRecipes.UpsertShape | js/script.js:121 | An existing id is replaced in place: same length, other positions unchanged. A new id is appended. |
| SavedRecipes.UpsertIdempotent | js/script.js:121 | Upserting the same record twice is the same as once. |
| SavedRecipes.UpsertThenDelete | js/script.js:121 | Deleting an id just upserted leaves the list as deleting it before would. |
| SavedRecipes.ToggleFlips | js/script.js:589-591 | The toggle flips `fav` on the first record with the id and changes nothing else. |
| SavedRecipes.ToggleTwice | js/script.js:589-591 | Toggling twice restores the list. |
| SavedRecipes.NewRecipe | js/script.js:538-552 | A blank title is refused. Otherwise: the id given, the trimmed title, `fav` false, the lower-cased trimmed category or `general` when that is empty, the ingredients `ParseCommaList` gives for the raw field, and the cleaned split steps, none for a blank field. |
| SavedRecipes.Edited | js/script.js:352-361 | A blank title is refused. Otherwise: id and `fav` kept, the trimmed title, the typed lower-cased category, else the old one, else `general`, and `ParseLines` of the ingredients and of the steps. |
| SavedRecipes.FieldValue | js/script.js:255-264 | The edit form's escaped markup decodes to the exact text. |
| SavedRecipes.InputValue | js/script.js:254-257 | A one-line input holds the text without its line breaks, and a text without them unchanged. |
| SavedRecipes.InputDropsLineBreak | js/script.js:254 | A title with a line break does not survive the form: `"a\nb"` comes back as `"ab"`. |
| SavedRecipes.EditUnchanged | js/script.js:342-362 | Saving the edit form untouched gives back a record whose fields are already in normal form and hold no line breaks. |
| SavedRecipes.RecipeStore.constructor | js/script.js:121 | The store holds the saved list it is given. |
| SavedRecipes.RecipeStore.FindIndex | js/script.js:121 | The loop computes `IndexOfId`. |
| SavedRecipes.RecipeStore.IsSaved | js/script.js:122 | `some(r => r.id === id)`. |
| SavedRecipes.RecipeStore.Upsert | js/script.js:121 | The new list is `Upserted` of the old. |
| SavedRecipes.RecipeStore.Delete | js/script.js:597-601 | Not saved: refused, unchanged. Cancelled: unchanged. Confirmed: exactly the other ids remain. |
| SavedRecipes.RecipeStore.ToggleFav | js/script.js:587-592 | Found exactly when saved; the new list is `Toggled` of the old. |
| SavedRecipes.RecipeStore.SaveEdit | js/script.js:342-362 | Not saved: refused. Blank title: refused, unchanged. Otherwise the edited record is upserted. |
| QueryCache.Lookup | js/script.js:379-384 | The stored value is returned exactly when the entry exists and is at most five minutes old. |
| QueryCache.Pruned | js/script.js:382 | Only an expired entry for the key asked is deleted; nothing else changes. |
| QueryCache.ResultCache.constructor | js/script.js:376 | The query cache starts empty. |
| QueryCache.ResultCache.Set | js/script.js:378 | Value and time stamp are both replaced. |
| QueryCache.ResultCache.Get | js/script.js:379-384 | Answers `Lookup` and leaves `Pruned`. |
| QueryCache.LookupAfterSet | js/script.js:377-383 | A value just stored is returned for exactly five minutes after it was stored. |
| QueryCache.LookupOtherKey | js/script.js:378 | Storing under one key does not change what another key answers. |
| QueryCache.ExpiredStaysExpired | js/script.js:382 | An expired entry stays expired at any later time. |
| QueryCache.PruneUnobservable | js/script.js:382 | The deletion cannot be observed: from then on every key answers as without it. |
| QueryCache.LookupStable | js/script.js:379-384 | Asking twice at the same moment gives the same answer. |
| QueryCache.SearchKey | js/script.js:398-405 | No key for an all-white-space query; otherwise the key starts with `search:`. |
| QueryCache.IngredientsKey | js/script.js:443-451 | No key when the parsed list is empty; otherwise the key starts with `ing:`. |
| QueryCache.KeysDisjoint | js/script.js:405 | A text search and an ingredient search never share an entry. |
| QueryCache.SearchKeyPadded | js/script.js:399-405 | White space around the query does not change its key. |
| QueryCache.IngredientsKeyReparse | js/script.js:443-451 | Typing back the normalised ingredient list finds the same entry. |
| ClientTranslation.Answer | js/script.js:63 | The reply entries consumed number at most the texts sent. |
| ClientTranslation.Resolved | js/script.js:63-66 | At most one value per text sent. A failed request gives none; a body without `translations` gives the texts themselves. |
| ClientTranslation.Translated | js/script.js:35-79 | The result has the input's length. |
| ClientTranslation.Lookup | js/script.js:43-44 | A slot is filled exactly when the text's `es` key is cached. |
| ClientTranslation.Slots | js/script.js:42-46 | After the partition loop, each slot is the cached value of its text, if any. |
| ClientTranslation.MergedIsTranslated | js/script.js:42-78 | The partition, write-back or restore, and the merge compute the reference result. |
| ClientTranslation.TranslationCache.constructor | js/script.js:32 | `_tCache` starts empty. |
| ClientTranslation.TranslationCache.Split | js/script.js:42-46 | Hits fill their slot; `need` and `idx` are the misses and their positions. |
| ClientTranslation.TranslationCache.Store | js/script.js:64-69 | Each resolved value fills its slot and is cached under the `es` key of `need[k]`, in order. |
| ClientTranslation.TranslationCache.Exchange | js/script.js:50-75 | A failed request leaves the cache alone and gives every miss its original. An answer is stored as `Store` states. |
| ClientTranslation.Restore | js/script.js:72-75 | After a failed request every miss gets its original text. |
| ClientTranslation.Complete | js/script.js:77-78 | Every still-empty slot gets its original text. |
| ClientTranslation.TranslateMany | js/script.js:35-79 | The result is `Translated` and the cache is `AfterBatch`, both of the old cache. |
| ClientTranslation.OffOrEmptyUnchanged | js/script.js:36 | With translation off or an empty input, the input comes back unchanged and nothing is cached. |
| ClientTranslation.ThrownKeepsOriginals | js/script.js:71-78 | After a failed request, each item is its cached translation or its original. |
| ClientTranslation.HitsComeFromCache | js/script.js:42-46 | A hit is answered from the cache whatever the reply, and is not sent. |
| ClientTranslation.AllHitsIgnoreReply | js/script.js:48 | When every item hits, the reply changes neither the result nor the cache. |
| ClientTranslation.StoredKeeps | js/script.js:68 | The write-back never removes a cached key. |
| ClientTranslation.StoredHas | js/script.js:68 | Every text written back is cached afterwards. |
| ClientTranslation.StoredLast | js/script.js:64-69 | Each text sent is cached with the value of its last write-back, the one placed in its slot. |
| ClientTranslation.RepeatIsAllHits | js/script.js:42-69 | After an answer covering every text sent, the same batch sends nothing. |
| ClientTranslation.EchoIsIdentity | js/script.js:63-78 | With no translation coming back and a cache mapping each text to itself, the result is the input. |
| ClientTranslation.Pack | js/script.js:84-87 | The batch is the title, then the ingredients, then the steps. |
| ClientTranslation.Unpack | js/script.js:88-94 | Same number of ingredients and steps; id, category and `fav` kept; repacking gives the translated batch. |
| ClientTranslation.UnpackPack | js/script.js:84-94 | Unpacking an untranslated batch gives the recipe back, a missing title as `""`. |
| ClientTranslation.TranslateRecipe | js/script.js:82-95 | The recipe is `Unpack` of the translated batch; the cache is as `TranslateMany` leaves it. |
| ClientTranslation.TranslateRecipeEcho | js/script.js:82-95 | Under an identity translation, title, ingredients and steps come back unchanged. |
| ClientTranslation.Titles | js/script.js:99 | One title per recipe. |
| ClientTranslation.Retitled | js/script.js:101 | Only the titles change, to the list given. |
| ClientTranslation.TranslateTitles | js/script.js:98-102 | The recipes get `Translated` of their titles; nothing else changes. |

## Left out

- Network calls are parameters: `fetch` in `translateDeepL`, `translateLibre` and `translateMany`, `readBody`'s stream and `JSON.parse`. Non-array or non-string JSON values for `texts`, `text`, `target` and `translations` are not modelled.
- The 500 answer (api/translate.js:63-65) is left out. Every exception in the handler is a network or JSON failure, and those are outside the model.
- `tr ?? need[k]` on the server (api/translate.js:53): provider outputs are always strings in the model, so the fallback is never taken.
- ClientTranslation.TranslateMany: reply entries beyond the number of texts sent are not modelled. The code writes them to `out["undefined"]`, and to the cache under `es|undefined`.
- The steps regex `/\n+|\. +(?!\d)/` in the new-recipe form is a parameter `splitSteps` of `SavedRecipes.NewRecipe`.
- Text.Lower: maps only the ASCII letters. JavaScript's `toLowerCase` maps all of Unicode and can lengthen a string ("İ", U+0130, becomes two code units), so the length fact holds of the model only.
- Recipes.FilterText: its bound "never longer than the typed text" rests on `Text.Lower` keeping the length, so it also holds of the ASCII mapping only.
- `Date.now()` is an integer parameter. The `createdAt` sort of "Mis recetas" (js/script.js:512) and `toLocaleDateString` are left out, because both need dates and locale.
- `localStorage`, `loadRecetas`/`saveRecetas` and `clone` are left out. The saved list is a field of `RecipeStore`.
- DOM rendering, modals, `alert`/`confirm` and event wiring are left out. `confirm`'s answer is the `confirmed` parameter of `RecipeStore.Delete`.
- `doSearch` and the ingredient search are modelled by their keys, the query cache, `dedupByTitle`, `cacheRecipes` and `translateMany`. The way they glue these together is not modelled: in particular the `titles[i] || r.titulo` merge and the `AbortController` cancellation.
- The import button (js/script.js:580-585) is left out: it is an upsert with a fresh `Date.now()` id.
- TranslateApi.Serve: each request is modelled as running alone between its partition and its write-back. Requests that overlap at the provider `await`s (api/translate.js:43, 47) can write the cache in between, so the final cache is `PutAll` of the writes only for a request that runs alone. Every single write still keeps the bound.
- TranslateApi.Handle: the same holds; its cache post-state assumes no other request runs during it.
- ClientTranslation.TranslateMany: each call is modelled as running alone. Calls that overlap at the `fetch` (js/script.js:55, 63), such as `translateRecipe` and `translateTitles` together, can write `_tCache` in between, so "the cache ends as `AfterBatch`" holds only for a call that runs alone.
- SavedRecipes.EditUnchanged: the `<textarea>` turns a `\r` into a line break and drops a line break right after its start tag; neither is modelled, so the lemma requires items without `\r`.
- Timeouts and cancellation are left out: `CLIENT_TIMEOUT_MS`, `searchCtrl`/`genCtrl` and the stale-modal check. A timed-out client request is `Reply.Thrown`.
- `api/edamam.js` is not part of this model. It is a proxy to a third-party API, with integer parsing and floating-point rounding.
