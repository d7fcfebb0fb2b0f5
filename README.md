# hanami-wasm-search, modelled in Dafny

hanami-wasm-search is an emoji search engine compiled to WebAssembly. It keeps a
set of documents, each one an emoji name with its aliases, and answers short
queries with the names of the best-matching documents. A query can be typed in
romaji: an ASCII query is also tried in its hiragana transliteration. The
repository has two engines, and both are modelled here.

* **The current engine** (`crate/src/`).
  * It keeps a name -> aliases map, a document count, a format version and a
    `StringCache`. The cache memoises lowercase and hiragana forms and keeps a
    reverse alias -> names index.
  * A query list is lowercased. A single query holding a space goes to
    `search_and`, a two-pass AND search over the names, then over names and
    aliases.
  * Any other query list goes to `search_unified`. It gives each document the
    best of six match classes (`MatchPriority`) over every query, collects up to
    twice the limit of candidates, sorts them stably by class and keeps `limit`
    of them.
* **The older token-indexed engine** (`src/lib.rs`).
  * Every document is registered in a postings map under its name, its aliases
    and the 2-grams of each.
  * A query is expanded into its terms, their transliterations and the 2-grams
    of both, then sorted longest first.
  * The search visits the posting lists under a work budget, ORs a match-type
    bit per document and ranks by that bit pattern, then by the BM25 score.

## Files

| module | file | what it holds |
|---|---|---|
| `Wrappers` | wrappers.dfy | `Option`, and `Outcome` (`Ok` or `Err(msg)`), which stands for `Result<_, JsValue>` |
| `Text` | text.dfy | the string predicates both engines use (`is_ascii`, `starts_with`, `contains`, the UTF-8 byte length behind `len()`, `split(' ')`), and `Converters`, the lowercase and hiragana functions |
| `Seqs` | seqs.dfy | duplicate-free sequences, `retain`, `take`, and a stable insertion sort by a descending key |
| `Multimap` | multimap.dfy | `entry(k).or_default().push(v)` and "retain, then drop the entry if the list is empty", both engines' way of keeping a key -> list map |
| `Cache` | cache.dfy | `MatchPriority` and the `StringCache` class |
| `Search` | search.dfy | `search_and` and `search_unified`: each as a function, as the imperative method over the cache, and with the lemmas that relate them |
| `Store` | store.dfy | the current `Index` class: mutation API, cache maintenance, search dispatch, and `load` over decoded records |
| `Tokenizer` | tokenizer.dfy | `tokenize_2gram` |
| `Postings` | postings.dfy | the tokens a document is registered under, the scrub of `remove_doc`, and the postings invariant |
| `Query` | query.dfy | the old engine's expansion, match bits, budgeted visit and top-`limit` ranking |
| `TokenEngine` | token_engine.dfy | the old `Index` class and the lemmas about its search |

The modules import one another, so Dafny is given every file at once:
`dafny verify *.dfy`.

## Modelling decisions

* **Conversions.** Unicode lowercasing and `wana_kana`'s `to_hiragana` are
  outside the model. They are the two functions of a `Converters` value, and no
  law about them is assumed. The current engine's hiragana form of a string is
  `hira(lower(s))`, as the cache computes it. Its `query.to_hiragana()` on an
  already lowercased query is `hira(q)`.
* **Strings.** A string is a `seq<char>`. `ByteLen` is the UTF-8 length, which
  is what Rust's `len()` returns; the 50- and 100-byte and 2-byte thresholds of
  the old engine are in bytes, as in the code.
* **Hash-map order.**
  * `HashMap` iteration order is unspecified. The searches of the current
    engine take it as a parameter `order` that enumerates the document map, each
    key once (`Search.IsEnumeration`), and their results are stated for every
    such order.
  * `rebuild_cache` and the old engine's ranking pick elements with `:|`, and
    their contracts do not depend on the pick.
* **Decoding.** JSON and bincode decoding happen before the modelled code. A
  decoded argument is an `Outcome`, and its `Err` message is passed through
  untouched.
* **BM25 scores.** These are `f32` arithmetic. In the ranking they appear as an
  opaque `score: string -> int`. BM25 scores are positive, so ordering by the
  `f32` bit pattern, as the heap path does, and ordering by value, as the sort
  path does, agree.
* **Both ranking paths.** `Query.TopRanked` states what both of the old
  engine's ranking paths compute: the heap (`scores.len() > 2 * limit` and
  `limit < 100`) and the sort. The result holds the `limit` best documents by
  (priority, score), best first.
* **Behaviours of the code worth knowing.**
  * The old engine's query expansion is not duplicate-free. A verbatim term and
    a transliteration are pushed without consulting the seen set, so a repeated
    term is visited twice; `Query.ExpansionKeepsRepeats` exhibits it.
  * The old engine's score is the BM25 sum alone: no flat bonus is added for an
    exact or a prefix match, so the model adds none.
  * The old engine's match type of a document is the OR of the bits of all its
    visits, held in one byte and ranked as an integer; it is not one best class.
    `Query.MatchBitLaws` shows that a document holding a bit outranks every
    document holding neither that bit nor a higher one.
  * The size thresholds (50 and 100 for expansion, 50 for `remove_doc`, and 2
    for alias-partial) count bytes, not characters.
  * The current engine's `load` error message quotes only the legacy decoder's
    error. The current-format decoder's error is dropped.
  * The two engines' default limits differ: 10 in the current engine
    (`Store.DefaultLimit`) and 20 in the old one (`TokenEngine.DefaultLimit`).
* **What a search does to the cache.** Every `get_lowercase` and
  `get_hiragana` stores the form it computes. `Cache.GrewBy` says that the
  caches grew by looking up exactly a given set of strings (the hiragana cache
  only by the ASCII ones); with the cache coherent, the keys fix the whole
  maps (`Cache.CoherentByKeys`). `Cache.GrewWithin` says the looked-up set
  lies between two bounds.

## Model

| member | source | states |
|---|---|---|
| `Cache.MatchPriority.Rank` | crate/src/cache.rs:88-96 | the six classes are numbered 1 to 6 |
| `Cache.PriorityTotalOrder` | crate/src/cache.rs:88-96 | the derived `Ord` is a strict total order: NameExact < AliasExact < NamePrefix < AliasPrefix < NamePartial < AliasPartial |
| `Cache.StringCache.constructor` | crate/src/cache.rs:17-19 | a new cache has all three maps empty and is coherent |
| `Cache.StringCache.GetLowercase` | crate/src/cache.rs:22-27 | returns `lower(text)`; the entry is added only if missing; the other maps are unchanged; every cached form stays equal to its conversion |
| `Cache.StringCache.GetHiragana` | crate/src/cache.rs:30-42 | an all-ASCII text gives `Some(hira(lower(text)))` and is cached; any other gives `None` and nothing changes |
| `Cache.StringCache.Clear` | crate/src/cache.rs:45-49 | all three maps are emptied |
| `Cache.StringCache.AddAliasMapping` | crate/src/cache.rs:52-57 | the name is appended at the end of the alias's list, which is created if absent; every other entry is untouched |
| `Cache.StringCache.RemoveAliasMapping` | crate/src/cache.rs:60-70 | the name leaves the alias's list; the entry goes iff no other name is left; every other entry is untouched; no list is ever left empty |
| `Cache.StringCache.Forget` | crate/src/cache.rs:75-76 | one string leaves both conversion caches; the reverse index is untouched |
| `Cache.StringCache.ForgetAlias` | crate/src/cache.rs:79-83 | one alias of `remove_document`: it leaves both conversion caches, and the name is unlinked from its list |
| `Cache.StringCache.RemoveDocument` | crate/src/cache.rs:73-84 | the name and every alias leave both conversion caches; the name is unlinked from each alias's list |
| `Multimap.UnlinkAllResult` | crate/src/cache.rs:79-83 | unlinking a name from several aliases, in any order: those aliases' lists lose it and disappear once empty, and every other entry is untouched |
| `Multimap.UnlinkAllRemovesDoc` | crate/src/cache.rs:73-84 | after `remove_document` the name is in none of its aliases' lists |
| `Multimap.LinkAllResult` | crate/src/lib.rs:355-359 | linking a name under several keys only adds: the keys grow by exactly those keys, old lists keep their members, and the name is in each linked list |
| `Multimap.LinkAllDistinct` | src/lib.rs:552-578 | with the seen set keeping the keys distinct, each key's list gets the name appended exactly once |
| `Search.PickMembers` | crate/src/search.rs:22-37 | one pass keeps, in iteration order, exactly the documents of the order that hit and are not excluded, without repeats |
| `Search.AndPassResult` | crate/src/search.rs:22-37 | a pass started under the limit either returns early with exactly `limit` documents, the first hits, or runs to the end with every hit |
| `Search.AndIsTakeOfPasses` | crate/src/search.rs:17-77 | for a positive limit, `search_and` is the first `limit` of the name-pass hits followed by the alias-pass hits |
| `Search.PassesMembers` | crate/src/search.rs:22-74 | pass 1 holds the documents whose name contains every keyword; pass 2 holds the remaining documents whose name or some alias contains every keyword; together they have no repeats |
| `Search.AndSearchProperties` | crate/src/search.rs:17-77 | the corrected AND search (the limit honoured also when it is 0) returns at most `limit` distinct documents; each contains every keyword in its name or aliases; when fewer than `limit` are returned, every such document is returned; name hits come before alias-only hits |
| `Search.AndLimitZeroOverflows` | crate/src/search.rs:31-36 | as written, `limit == 0` with one hitting document returns that document |
| `Search.AndAsWrittenBound` | crate/src/search.rs:17-77 | as written, at most `limit` results, or 1 when `limit == 0`; for a positive limit, as written equals corrected |
| `Search.AndZeroAfterMiss` | crate/src/search.rs:31-36 | with `limit == 0` a pass stops at its first hit |
| `Search.AndPassSound` | crate/src/search.rs:22-74 | a pass only adds documents of the order that hit (by name, or by name or alias in the second pass), and keeps the found list free of repeats |
| `Search.AndAsWrittenSound` | crate/src/search.rs:17-77 | whatever the limit, the search as written returns distinct documents, each holding every keyword in its name or an alias |
| `Search.SearchAnd` | crate/src/search.rs:17-77 | the imperative two-pass loop through the cache computes the AND search as written (one hit for `limit == 0`); the reverse index is untouched, and the conversion caches gain only names and aliases of documents, among them every document returned |
| `Search.NamePassCached` | crate/src/search.rs:22-38 | the first loop computes the name pass; the caches gain only document strings, among them every document it found |
| `Search.AliasPassCached` | crate/src/search.rs:41-74 | the second loop computes the name-or-alias pass from the first pass's hits; the caches gain only document strings, among them every document it adds |
| `Search.KeywordHitsForms` | crate/src/search.rs:26-30 | with the two forms of a text at hand, the test of one keyword is the keyword hit |
| `Search.KeywordHitsCached` | crate/src/search.rs:59-64 | one keyword hits the lowercase form, or the hiragana form of an ASCII text against the keyword's hiragana form; the caches grow by exactly that text |
| `Search.NameHitsAllCached` | crate/src/search.rs:23-30 | the `all` over the keywords against the name; the caches grow by exactly the name |
| `Search.DocHitsAllCached` | crate/src/search.rs:46-66 | the `all` over the keywords against the name, else `any` alias; the caches grow by the name and some of the aliases |
| `Search.KeywordsCached` | crate/src/search.rs:49-66 | the keyword loop is true iff every keyword is in the name or an alias; the caches grow by some of the aliases |
| `Search.DocKeywordCached` | crate/src/search.rs:50-65 | one keyword is in the name or some alias; the caches grow by the aliases looked up, only when the name misses |
| `Search.AnyAliasHitsCached` | crate/src/search.rs:58-65 | true iff some alias holds the keyword; the caches grow by some of the aliases |
| `Search.BestLaws` | crate/src/search.rs:109-159 | keeping the best of two classes is associative and commutative, NameExact absorbs, and the best is at least as good as both |
| `Search.AliasStepIsBest` | crate/src/search.rs:129-159 | the guarded if-else chain for one alias keeps the better of the class so far and that alias's own class |
| `Search.AliasesStepIsBest` | crate/src/search.rs:128-160 | the alias loop keeps the better of the class so far and the best alias class |
| `Search.ClassifyIsBestMatch` | crate/src/search.rs:89-162 | the per-query loop, with its guards and early `break`s, computes the best class over every query and every name or alias test |
| `Search.BestMatchBounds` | crate/src/search.rs:89-162 | that best class is at least as good as every class it ranges over, and is one of them |
| `Search.BestOverAliasesBounds` | crate/src/search.rs:128-160 | the best alias class is at least as good as each alias's class, and is one of them |
| `Search.ClassifyMeaning` | crate/src/search.rs:89-162 | a document's class is at least as good as its name class and every alias class for every query, and is attained by one of them |
| `Search.ClassifyNameExact` | crate/src/search.rs:95-106 | a document is NameExact iff its lowercase name equals a query or its hiragana form |
| `Search.NameExactClassifies` | crate/src/search.rs:95-106 | a query equal to the lowercase name, or whose hiragana form is, makes the document NameExact |
| `Search.NameExactFromClassify` | crate/src/search.rs:95-106 | a NameExact document has such a query, since no alias test gives NameExact |
| `Search.ClassifyMonotone` | crate/src/search.rs:91-162 | adding queries never makes a document's class worse |
| `Search.ClassifiedSound` | crate/src/search.rs:84-171 | every reference candidate names a document of the order with that document's class |
| `Search.ClassifiedComplete` | crate/src/search.rs:84-171 | every classified document of the order is a reference candidate |
| `Search.ClassifiedNoDup` | crate/src/search.rs:84-87 | no document is a candidate twice |
| `Search.ClassifiedMembers` | crate/src/search.rs:84-171 | the candidate names are exactly the classified documents |
| `Search.CollectIsTake` | crate/src/search.rs:164-170 | collection with its `break` keeps the first `2 * limit` classified documents of the order; with `limit == 0` it keeps the first one |
| `Search.CollectWellClassified` | crate/src/search.rs:84-171 | collection keeps at most `2 * limit` candidates (1 for `limit == 0`), distinct and each with its document's class |
| `Search.SortWellClassified` | crate/src/search.rs:174 | the sort by class is a permutation, ordered best class first |
| `Search.TopNames` | crate/src/search.rs:174-178 | the first `limit` sorted candidates are distinct, in best-class-first order |
| `Search.TopNamesAmong` | crate/src/search.rs:174-178 | the names kept after the sort and `take` are names of candidates |
| `Search.NamesOfPermutation` | crate/src/search.rs:174 | a candidate's name is still a name after the sort |
| `Search.UnifiedProperties` | crate/src/search.rs:80-179 | the unified search returns at most `limit` distinct documents, each classified, best class first |
| `Search.UnifiedComplete` | crate/src/search.rs:80-179 | when at most `limit` documents are classified, every one of them is returned |
| `Search.SearchUnified` | crate/src/search.rs:80-179 | the imperative search through the cache computes the unified search; the reverse index is untouched, and the conversion caches gain only names and aliases of documents, among them every document returned |
| `Search.CollectCandidates` | crate/src/search.rs:84-171 | the imperative document loop, with its seen set and its `break`, computes the collection; the caches gain only document strings, among them every candidate |
| `Search.ClassifyDocument` | crate/src/search.rs:89-162 | one document's class through the cache; the strings looked up grow by some of that document's own, its name among them when it is classified |
| `Search.ClassifyCached` | crate/src/search.rs:89-162 | the query loop through the cache gives the document's class; the caches grow by exactly nothing (no queries), the name (the first query an exact name match), or the name and every alias |
| `Search.QueryCached` | crate/src/search.rs:92-161 | one query: the exact-name tests end the loop with NameExact, otherwise the prefix, partial and alias tests; the caches grow by exactly the name, and by every alias too unless the loop ends or the class is already NameExact |
| `Search.AliasesCached` | crate/src/search.rs:128-160 | the alias loop through the cache keeps the better of the class so far and the best alias class; the caches grow by exactly the aliases |
| `Search.AliasStepCached` | crate/src/search.rs:129-159 | one alias's if-else chain through the cache; the caches grow by exactly that alias |
| `Cache.GrewByTrans` | crate/src/cache.rs:22-42 | two rounds of lookups grow the caches as one round of both sets |
| `Cache.CoherentByKeys` | crate/src/cache.rs:22-42 | coherent caches with the same keys are the same maps, so the keys looked up fix the new cache |
| `Seqs.SortDescCorrect` | crate/src/search.rs:174 | the sort used for both engines' orderings returns a sorted permutation of its input |
| `Text.SplitJoin` | crate/src/lib.rs:174 | the pieces of `split(' ')` joined with spaces give back the query |
| `Text.SplitPiecesLackSep` | crate/src/lib.rs:174 | no piece of `split(' ')` contains a space |
| `Text.SplitCount` | crate/src/lib.rs:173-174 | a string holding a space splits into at least two keywords, and one without splits into one |
| `Text.ByteLenBounds` | src/lib.rs:221 | the byte length lies between the character count and four times it, and equals the character count iff the string is ASCII |
| `Store.LinkStep` | crate/src/lib.rs:340-344 | linking one more document's aliases extends the reverse index's agreement to that document |
| `Store.LinkedInsert` | crate/src/lib.rs:349-360 | `add_document`'s cache update keeps the reverse index equal to the document map, read backwards |
| `Store.LinkedRemoveSound` | crate/src/lib.rs:241-243 | after removal the reverse index lists no pair that is not in the remaining documents |
| `Store.LinkedRemoveComplete` | crate/src/lib.rs:241-243 | after removal the reverse index lists every (alias, name) pair of the remaining documents |
| `Store.LinkedRemove` | crate/src/lib.rs:239-246 | `remove_doc`'s cache update keeps the reverse index equal to the remaining documents, read backwards |
| `Store.MentionedStep` | crate/src/lib.rs:334-345 | the strings cached after one more document are those before plus its name and aliases |
| `Store.UpsertResult` | crate/src/lib.rs:126-138 | after a batch the names are the old ones plus the batch's; an unmentioned name keeps its aliases; each name gets the aliases of its last occurrence |
| `Store.PutCountCounted` | crate/src/lib.rs:270-278 | from a count equal to the number of documents, putting one document (removing any entry of its name, then incrementing) gives the new number of documents |
| `Store.BatchCountCounted` | crate/src/lib.rs:126-138 | from a count equal to the number of documents, the batch count is the number of documents after the upsert |
| `Store.UpsertKeys` | crate/src/lib.rs:126-138 | after a batch the names are the old ones plus the batch's |
| `Store.UpsertKeeps` | crate/src/lib.rs:126-138 | a name the batch does not mention keeps its aliases |
| `Store.UpsertLast` | crate/src/lib.rs:126-138 | a batch name gets the aliases of its last occurrence |
| `Store.LoadMeaning` | crate/src/lib.rs:201-237 | a current record loads unchanged; a legacy record keeps its documents and count and becomes version 2; otherwise the error begins "Failed to load index: " followed by the legacy decoder's message |
| `Store.DispatchMeaning` | crate/src/lib.rs:147-182 | a query list that does not decode is an error; an empty index gives no results; otherwise distinct documents, at most `limit` (default 10) of them except for the AND path with a limit of 0; a single query holding a space gives AND-search hits of its space-separated keywords, at most one for a limit of 0; any other list gives classified documents |
| `Store.Index.constructor` | crate/src/lib.rs:102-109 | a new index has no documents, version 2 and an empty cache |
| `Store.Index.FromRecord` | crate/src/lib.rs:205-209 | a loaded index holds the record's fields; its reverse index agrees with the documents, and exactly the documents' names and aliases are cached (hiragana forms only for ASCII strings) |
| `Store.Index.RemoveDoc` | crate/src/lib.rs:239-246 | an absent name changes nothing; a present one leaves the map, the count drops with saturation, and both conversion caches lose exactly the name and its aliases while the name is unlinked from each alias; the reverse-index agreement and the count invariant are kept |
| `Store.Index.RemoveDocument` | crate/src/lib.rs:249-257 | true iff the name was present; afterwards it is absent; when it was present the count drops with saturation and the cache forgets the name and its aliases, else nothing changes |
| `Store.Index.UpdateCacheForDocument` | crate/src/lib.rs:349-360 | the cached strings become the old ones plus the name and the aliases (hiragana only if ASCII), and the name is linked under each alias in turn |
| `Store.Index.CacheAliases` | crate/src/lib.rs:355-359 | the alias loop adds exactly the aliases to the lowercase cache, the ASCII ones to the hiragana cache, and links the name under each alias in order |
| `Store.Index.CacheAlias` | crate/src/lib.rs:356-358 | one alias: it is added to the lowercase cache, to the hiragana cache only if ASCII, and the name is appended to its reverse-index list |
| `Store.Index.RebuildCache` | crate/src/lib.rs:331-346 | after the rebuild, exactly the names and aliases are cached, and the reverse index agrees with the documents, whatever the iteration order |
| `Store.Index.AddDocument` | crate/src/lib.rs:260-281 | bad aliases change nothing; otherwise the name maps to the new aliases, the count is that of a saturating removal (when present) followed by one increment, whatever it was before, and the caches are exactly those of `remove_doc` then `update_cache_for_document` (`CachedAfterPut`); the invariants are kept |
| `Store.Index.AddDecoded` | crate/src/lib.rs:269-278 | after decoding: the name maps to the new aliases, the count is the put count, and the cached strings are the old ones minus what the removal evicts plus the name and aliases, with the name unlinked from its old aliases and linked from its new ones |
| `Store.Index.UpdateDocument` | crate/src/lib.rs:284-303 | an absent name gives false and bad aliases give the error, both changing nothing; otherwise true, with the document replaced, the count decremented with saturation then incremented, and the caches as `remove_doc` then `add_document` leave them |
| `Store.Index.ReplaceDocument` | crate/src/lib.rs:296-300 | `remove_doc` then `add_document` maps the name to the new aliases, with the put count and the same caches as a single `add_document` (`CachedAfterPut`); the invariants are kept |
| `Store.PutAfterRemove` | crate/src/lib.rs:296-300 | a `remove_doc` before `add_document` leaves the caches `add_document` alone would leave: its own removal then evicts nothing more |
| `Store.Index.AddDocuments` | crate/src/lib.rs:111-144 | a batch that does not decode changes nothing; otherwise the map is the batch upserted in order, the count is the batch count from the old one, and after the rebuild exactly the documents' names and aliases are cached |
| `Store.Index.PutDocument` | crate/src/lib.rs:132-137 | one batch document: any entry of the name removed (the caches lose exactly its name and aliases, which are unlinked), then the name maps to its aliases, with the count of a saturating removal (when present) and one increment |
| `Store.Index.ReplaceAllDocuments` | crate/src/lib.rs:306-314 | the index is emptied first (and stays empty on a decoding error), then holds exactly the batch, with exactly its names and aliases cached |
| `Store.Index.ClearIndex` | crate/src/lib.rs:317-321 | no documents, a zero count and an empty cache; the version is kept |
| `Store.Index.Search` | crate/src/lib.rs:147-182 | the search computes the dispatch for the iteration order; the reverse index is untouched; the conversion caches are untouched on an error or an empty index, else gain only names and aliases of documents, among them every document returned |
| `Store.Index.SearchNoLimit` | crate/src/lib.rs:185-188 | `search` with no limit: the dispatch with the default, at most 10 distinct documents of the index, with the cache behaviour of `search` |
| `Store.Index.SearchWithLimit` | crate/src/lib.rs:191-194 | `search` with a limit: the dispatch with that limit, at most that many distinct documents of the index (one for a limit of 0), with the cache behaviour of `search` |
| `Store.LoadIndex` | crate/src/lib.rs:201-237 | `load` succeeds iff a format decodes; the error message is the one above; the loaded index holds the (migrated) record, its reverse index agrees with it, and exactly its names and aliases are cached |
| `Tokenizer.PairsShape` | src/lib.rs:37-43 | the pair loop gives one two-character window per position |
| `Tokenizer.BigramsShape` | src/lib.rs:17-49 | 0 characters give no token, 1 gives the text itself; n ≥ 2 give n tokens, the n-1 windows `text[i..i+2]` and then the text |
| `Tokenizer.BigramsOfToken` | src/lib.rs:17-49 | the tokens of a token of a word are that token or tokens of the word |
| `Tokenizer.Tokenize2gram` | src/lib.rs:17-49 | the loop computes the 2-gram tokens |
| `Postings.AddUnseenResult` | src/lib.rs:562-565 | the seen-set loop extends the pushed list by exactly the unseen tokens, once each |
| `Postings.ClosedAfterWord` | src/lib.rs:568-577 | after a word and its 2-grams are pushed, every 2-gram of a pushed token has been pushed |
| `Postings.AddAliasesResult` | src/lib.rs:568-578 | the alias loop pushes exactly the aliases and their 2-grams not yet seen, once each, even though a seen alias skips its own 2-grams |
| `Postings.RegisteredMeaning` | src/lib.rs:554-578 | a document is registered under exactly its name, aliases and their 2-grams, each once, the name first |
| `Postings.ScrubMeaning` | src/lib.rs:512-517 | after the fallback `retain` the document is in no list, the lists it alone held are gone, and lists without it are untouched |
| `Postings.UnlinkThenScrub` | src/lib.rs:492-508 | a step of the targeted loop changes nothing the fallback would not, and leaves no list empty |
| `Postings.WellFormedScrub` | src/lib.rs:469-520 | removal keeps the postings invariant: no list empty or repeated, every listed name a document, every document under its own name |
| `Postings.WellFormedRegister` | src/lib.rs:535-581 | registering a new document keeps the invariant and lists it under exactly its wanted tokens |
| `Query.PushUnseenResult` | src/lib.rs:241-245 | the seen-set push loop adds exactly the tokens not yet present, and the seen set stays the set of pushed tokens |
| `Query.ExpandTermResult` | src/lib.rs:214-247 | one term adds exactly the tokens it expands to |
| `Query.ExpandTermsResult` | src/lib.rs:214-247 | the term loop adds exactly the tokens the terms expand to |
| `Query.ExpandMembers` | src/lib.rs:214-258 | a token is in the expansion iff some query term expands to it (itself; for an ASCII alphabetic term under 50 bytes its differing transliteration and that transliteration's 2-grams; for a term under 100 bytes its 2-grams); every term is present |
| `Query.ExpandOrder` | src/lib.rs:257-258 | the expansion is visited by non-increasing byte length and is a permutation of the push order |
| `Query.ExpansionKeepsRepeats` | src/lib.rs:217 | the query `["1!", "1!"]` expands to `["1!", "1!"]`: repeats survive |
| `Query.Priority` | src/lib.rs:368-373 | the priority is the OR of the six masked bits |
| `Query.MatchBitLaws` | src/lib.rs:288-323 | each visit sets at most one of the six bits; an accumulated type is its own priority; a type holding a bit outranks any type below that bit |
| `Query.VisitListResult` | src/lib.rs:273-325 | the inner loop only adds listed documents; the budget, once exceeded, stays exceeded; the loop stops over budget or classifies the whole list |
| `Query.VisitListKeys` | src/lib.rs:273-325 | the visits only count up, and the scored documents are the old ones plus some of the list's |
| `Query.VisitListBits` | src/lib.rs:288-323 | every accumulated type stays among the six bits |
| `Query.VisitListBudget` | src/lib.rs:273-276 | once over budget the list is left; short of it, every document of the list is scored |
| `Query.VisitBitBelow` | src/lib.rs:288-323 | scoring one document (one more visit, its bit ORed into its type) keeps every accumulated type among the six bits |
| `Query.VisitTermsResult` | src/lib.rs:264-327 | the outer loop classifies only documents listed under the tokens it visits, and all of them unless the budget is exceeded |
| `Query.VisitMeaning` | src/lib.rs:261-327 | classified documents are listed under an expanded token; the budget stops the visit only once `2 * limit` documents are scored |
| `Query.SortTakeIsTop` | src/lib.rs:400-444 | sorting any enumeration of the scored documents by (priority, score) and taking `limit` gives the top `limit` |
| `Query.ShortRankingHasAll` | src/lib.rs:332-444 | a top ranking shorter than the limit holds every scored document |
| `Query.RankDocs` | src/lib.rs:332-445 | the ranking returns the top `limit` documents by priority, then score |
| `Query.PushNew` | src/lib.rs:241-245 | the imperative seen-set push loop computes the push step |
| `Query.ExpandQuery` | src/lib.rs:214-258 | the imperative expansion and the sort compute the expansion |
| `Query.TokenIsFromOriginalQuery` | src/lib.rs:197-211 | true iff the token is a query term or a prefix of one |
| `Query.ClassifyVisit` | src/lib.rs:290-324 | the classification branch computes the match bit |
| `Query.VisitPostings` | src/lib.rs:261-327 | the nested loop, with the `break` leaving the inner loop only, computes the visit |
| `Query.VisitPostingList` | src/lib.rs:272-325 | the inner loop with its budget `break` computes the visit of one list |
| `TokenEngine.RemoveOneWellFormed` | src/lib.rs:469-520 | removal keeps the postings invariant and the count invariant |
| `TokenEngine.RemoveOneMeaning` | src/lib.rs:469-520 | an absent name changes nothing; a present one is uncounted and in no list, the lists it emptied are gone, and every other document is listed exactly where it was |
| `TokenEngine.AddOneWellFormed` | src/lib.rs:535-581 | adding keeps both invariants and records `len(aliases) + 1` for the name |
| `TokenEngine.AddOneCounts` | src/lib.rs:542-548 | remove then insert is one insert, and the count stays the number of documents |
| `TokenEngine.AddOneListsName` | src/lib.rs:554-578 | after adding, the name is listed under exactly its wanted tokens, its own name among them |
| `TokenEngine.AddOneKeepsOthers` | src/lib.rs:535-581 | adding leaves every other document listed exactly where it was |
| `TokenEngine.AddAllWellFormed` | src/lib.rs:124-163 | a batch keeps both invariants |
| `TokenEngine.AddAllCounts` | src/lib.rs:124-131 | a batch sets each document's count to `len(aliases) + 1`, in batch order |
| `TokenEngine.AddAllDocuments` | src/lib.rs:124-163 | after a batch the documents are the old ones plus the batch's, each counted with its last occurrence's aliases, and names outside the batch keep their counts |
| `TokenEngine.SearchSound` | src/lib.rs:169-446 | at most `limit` distinct documents, each a document listed under an expanded token, by non-increasing priority |
| `TokenEngine.SearchExhaustive` | src/lib.rs:261-446 | a result shorter than the limit holds every document listed under an expanded token |
| `TokenEngine.Index.constructor` | src/lib.rs:96-103 | an empty index satisfying both invariants |
| `TokenEngine.Index.RemoveDoc` | src/lib.rs:469-520 | the targeted loop with its `break`, then the fallback `retain` and the saturating decrement, computes the removal |
| `TokenEngine.Index.RemoveDocument` | src/lib.rs:523-532 | true iff the name was present; the state is the removal |
| `TokenEngine.Index.Register` | src/lib.rs:554-578 | the seen-set guarded loops push the name under exactly its registered tokens |
| `TokenEngine.Index.LinkUnseen` | src/lib.rs:562-565 | one guarded push loop |
| `TokenEngine.Index.IndexDocument` | src/lib.rs:541-578 | the shared body of both add operations computes one addition |
| `TokenEngine.Index.AddDocument` | src/lib.rs:535-581 | bad aliases change nothing; otherwise the document is (re)indexed |
| `TokenEngine.Index.AddDocuments` | src/lib.rs:107-166 | a batch that does not decode changes nothing; otherwise each document is indexed in order |
| `TokenEngine.Index.UpdateDocument` | src/lib.rs:584-603 | an absent name gives false and bad aliases give the error, both changing nothing; otherwise true, with the document reindexed |
| `TokenEngine.Index.ReplaceAllDocuments` | src/lib.rs:606-614 | the index is emptied (and stays empty on a decoding error), then holds exactly the batch |
| `TokenEngine.Index.ClearIndex` | src/lib.rs:617-621 | no postings, no documents, a zero count |
| `TokenEngine.Index.Search` | src/lib.rs:169-446 | a decoding error is returned; an empty index gives no results; otherwise the top `limit` (default 20) of the documents the budgeted visit of the expanded query classifies |
| `TokenEngine.Index.SearchNoLimit` | src/lib.rs:449-452 | `search` with the default limit: the decoding error, no results for an empty index, otherwise the top 20 of the classified documents, at most 20 distinct documents of the index |
| `TokenEngine.Index.SearchWithLimit` | src/lib.rs:455-458 | `search` with a limit: the decoding error, no results for an empty index, otherwise the top `limit` of the classified documents, at most `limit` distinct documents of the index |

## Left out

- JSON (`serde_json`) and bincode decoding and encoding, and `log_json_error`: they are outside the engine's logic. Decoded values are inputs, and an error is an opaque message.
- `dump` of both engines, and the old engine's `load`: they are bincode serialisation of the fields, with no logic of their own.
- `wasm_bindgen`, `JsValue`, `serde_wasm_bindgen::to_value` and `Arc` sharing: these are interop and memory management.
- The old engine's `k1` and `b` fields, `with_params` and `set_params`: they only feed the BM25 formula. They are not part of the modelled state.
- TokenEngine.Index.Search: the BM25 score is floating point, so it is an opaque integer per document (`score`), not computed from `idf`, `tf` and `doc_len`.
- TokenEngine.Index.Search: documents with equal priority and score may come out in any order. The source's order there depends on hash-map iteration and heap layout.
- Capacity hints (`with_capacity`, the size estimates) only affect allocation and are not modelled.
- `usize` overflow is not modelled: counts and limits are unbounded naturals. This covers `n_docs += 1` (crate/src/lib.rs:137, 278; src/lib.rs:131, 548), `limit * 2` in `search_unified` (crate/src/search.rs:82, 167), and `result_limit * 10` and `result_limit * 2` in the old engine's search (src/lib.rs:262, 275, 332).
- Cache.StringCache.GetLowercase: Unicode lowercasing and `to_hiragana` are uninterpreted functions. Nothing is proved that depends on what they compute.
- Seqs.SortDescCorrect: the sort states sortedness and permutation but not stability. Among equal keys the order of `sort_by_key` follows the iteration order, which the model leaves unspecified anyway.
- Store.Index.GetVersion has no contract beyond its body: `get_version` returns the field.
- Search.SearchAnd: the exact set of strings the two passes look up depends on where their loops and `any` stop; the contract bounds it (the documents returned, up to every document's name and aliases) instead of stating it.
- Search.NamePassCached: the looked-up names are bounded (the documents found, up to every document string) rather than stated as the names before the early return.
- Search.AliasPassCached: the looked-up strings are bounded (the documents added, up to every document string) rather than stated exactly.
- Search.DocHitsAllCached: the looked-up aliases are bounded (none, up to all of them) rather than stated as those before the first hit of each keyword.
- Search.KeywordsCached: the looked-up aliases are bounded by the document's aliases rather than stated exactly.
- Search.AnyAliasHitsCached: the looked-up aliases are bounded by the document's aliases rather than stated as those up to the first hit.
- Search.CollectCandidates: the looked-up strings are bounded (the candidates, up to every document string) rather than stated as those of the documents before the `break`.
- Search.SearchUnified: the looked-up strings are bounded (the documents returned, up to every document string) rather than stated exactly.
- Search.ClassifyDocument: the strings added are bounded by the document's own rather than stated exactly; `Search.ClassifyCached` states them exactly.
- Store.Index.Search: the conversion caches' growth is bounded between the documents returned and every document string, as for the two searches it calls.
- Store.Index.SearchNoLimit: the cache growth is bounded as for `Store.Index.Search`.
- Store.Index.SearchWithLimit: the cache growth is bounded as for `Store.Index.Search`.
- `StringCache::new` taking no conversion functions: the model's constructor takes the `Converters` value, because the conversions are parameters.

## Findings

| source | as written | input that shows it | evidently intended | confidence | as-written member | corrected member |
|---|---|---|---|---|---|---|
| crate/src/search.rs:31-36 | a hit is pushed before `matches.len() >= limit` is tested, so `search_and` with `limit == 0` returns one document | one document `"a"` with no aliases, keywords `[""]`, limit 0: returns `["a"]` | at most `limit` results, so none for `limit == 0` | not executed | `Search.AndLimitZeroOverflows` | `Search.AndSearchProperties` |

The index's API (`Store.Dispatch`, `Search.SearchAnd`) models `search_and` as written, `Search.AndAsWritten`; `Search.AndSearch` is the corrected definition, with the `limit == 0` case returning nothing.
