# mybgg collection pass, modelled in Dafny

mybgg exports a BoardGameGeek collection to a search index. This project models the pure part of that work: what happens after the catalog client has fetched the owned editions, the owned accessories, the logged plays and the full catalog record of every referenced item. The fetched data comes in as plain sequences. Everything after that is pure functions over immutable datatypes.

The modules follow the repository's structure:

- `Records` holds the parsed catalog records (`Detail`), the owned editions (`CollectionItem`) and the plays.
- `Outcome` holds the `Result`/`Option` values. Every exception the Python code can raise becomes a `Failure` that names it: `KeyError`, `IndexError`, `ValueError`, `OverflowError`, `decimal.InvalidOperation` and `AttributeError`.
- `Text`, `Lists`, `Sorting` and `Ordered` hold what Python's built-ins provide:
  - whitespace `split`, `split(sep)`, `join`, `replace` and `int()`;
  - list comprehensions with a condition;
  - the stable `sorted` over string or integer keys;
  - `_uniq`;
  - an insertion-ordered dict (`OMap`) and the ordered multimap that stands for `multidict.MultiDict`.
- `Hooks` holds the callbacks the client's XML schema runs on parsed values: the player-count vote reduction, `suggested_numplayers`, `age_conversion`, `suggested_playerage`, the status-tag hook and the players hook. It also holds the batching of ids in `game_list`.
- `Models` holds the `BoardGame` entity and its derived fields:
  - the name with its leading article moved to the end;
  - the player-count merge with the expansions;
  - playing-time and weight buckets;
  - the optional statistics;
  - equality and hashing by id.
- `Titles` and `Filters` hold the helpers of the downloader: `move_article_to_end`, `move_article_to_start`, `remove_prefix`, `publisher_filter`, `family_filter`, `is_promo_box`, `custom_expansion_mappings` and `_create_blank_collection`.
- `Editions`, `Resolution`, `Building` and `Cleanup` hold the body of `Downloader.collection`, written as folds over immutable maps and sequences:
  - the owned editions keyed by id, with each play's players filed under the *first* edition of the game;
  - the game and expansion dicts, with promo boxes promoted to games;
  - expansions filed under the expansions they expand, and accessories under what they belong to;
  - expansions attached to the games they expand, with orphans sent to the catch-all game 81913;
  - one entity per owned edition of each held game, each carrying one entity per owned edition of every distinct expansion and accessory;
  - the final clean-up: renaming, filtering and re-sorting.

Python mutates records in place and shares them between dicts. The model keeps that sharing where it changes results:
- A promo box is one record held in both the game dict and the expansion dict. The model keys the gathered lists by `Holder` (the game record or the expansion record under an id), so both dicts see the same lists.
- An orphan expansion's player-count poll is cleared (line 125). This shows in every entity built from that record afterwards, and `Pass.cleared` records it.

The collection record that the pass passes positionally as the constructor's `image` argument is kept as the entity's `image` field.

The entity constructor reaches the building stage as a parameter of type `Building.Constructor`. The building lemmas rely only on what `Building.Constructs` says of it, and `Building.Resolve` supplies `Models.NewBoardGame`, which `Building.NewBoardGameConstructs` shows qualifies.

## Model

| member | source | states |
|---|---|---|
| Titles.MoveArticleToEnd | scripts/mybgg/downloader.py:288-299 | An empty title comes back unchanged. A title whose first word is not A/An/The comes back unchanged. Otherwise the result is the remaining words joined by single spaces, then ", ", then the article. A non-empty title made only of spaces has no first word and fails (IndexError). |
| Titles.MoveArticleToStart | scripts/mybgg/downloader.py:301-311 | When the text after the last ", " is an article, that article moves to the front, followed by a space and the rest; a bare article gains a trailing space. Any other title, and the empty one, is unchanged. |
| Titles.StartMovedBare | scripts/mybgg/downloader.py:303-310 | A bare article comes back with a trailing space: it is the only piece of its split, and nothing precedes it. |
| Titles.StartMovedTrailing | scripts/mybgg/downloader.py:303-310 | A title ending in ", " and an article comes back as that article, a space and the text before ", ". |
| Titles.StartMovedOther | scripts/mybgg/downloader.py:303-311 | A title that is neither a bare article nor ends in ", " and an article comes back unchanged. |
| Titles.LastPieceNotArticle | scripts/mybgg/downloader.py:308-309 | When a title is not a bare article and does not end in ", " and an article, the text after its last ", " is not an article, so the test on line 309 is false. |
| Titles.TrailingArticle | scripts/mybgg/downloader.py:301-311 | The article that ends a title after ", ", or none: a non-empty answer does end the title so, and an empty one means no article does. |
| Titles.TrailingArticleUnique | scripts/mybgg/downloader.py:301-311 | A title ends in at most one article after ", ". |
| Titles.BareArticleIsOnePiece | scripts/mybgg/downloader.py:303-305 | Splitting a bare article on ", " gives the article alone. |
| Titles.TrailingArticleIsLastPiece | scripts/mybgg/downloader.py:303-310 | When a title ends in ", " and an article, the last piece of the split is that article, and the other pieces join back to the text before ", ". |
| Titles.LastArticlePieceTrails | scripts/mybgg/downloader.py:303-310 | The last piece of the split is an article only for a bare article or the title's trailing article. |
| Titles.ArticleRoundTrip | scripts/mybgg/downloader.py:288-311 | For a single-spaced title of two or more words that starts with an article, moving the article to the end and back gives the title back. |
| Titles.ArticleRoundTripBack | scripts/mybgg/downloader.py:288-311 | For a single-spaced "x, article" title, moving the article to the front and back gives the title back. |
| Titles.StripOwnerTitle | scripts/mybgg/downloader.py:318-325 | At most one owner title is cut: the first in list order that is a case-insensitive prefix, and exactly its length. With no such title the name is unchanged. |
| Titles.FindFrom | scripts/mybgg/downloader.py:328-330 | The search finds the leftmost position from which the pattern matches, and where that match ends. When it finds nothing, the pattern matches nowhere. |
| Titles.StripLeadingNonWord | scripts/mybgg/downloader.py:332 | Removes exactly the leading run of non-word characters: the result is a suffix that is empty or starts with a word character. |
| Titles.Tidy | scripts/mybgg/downloader.py:332-334 | After the leading non-word run goes and " – " becomes ": ", the text is empty exactly when the strip left nothing. Otherwise it starts with a word character, so it is not all spaces. |
| Titles.CleanTail | scripts/mybgg/downloader.py:328-339 | The clean-up after the owner title is cut is empty exactly when the fan and map-pack substitutions, the leading non-word strip and the dash swap leave nothing. |
| Titles.RemovePrefix | scripts/mybgg/downloader.py:313-342 | `remove_prefix` never fails. Its result is the clean-up of the name with its article moved to the front and its first matching owner title cut, or the original name when that clean-up is empty. |
| Titles.RemovePrefixCutsOwnerTitle | scripts/mybgg/downloader.py:313-342 | A name that starts with the first owner title (and has no article to move) loses exactly that title: the result is the clean-up of the rest, or the original name when the rest cleans to nothing. |
| Titles.RemovePrefixNeverFails | scripts/mybgg/downloader.py:313-342 | The name clean-up never raises, and it yields an empty name only for an empty name: an emptied result falls back to the original. |
| Filters.PublisherFilter | scripts/mybgg/downloader.py:244-255 | When some publisher is "(Public Domain)" (171), the result is exactly the first such publisher. Otherwise it is the same publishers in the same order, with the "own" flag set on exactly those whose id is the owned edition's publisher id. |
| Filters.FamilyFilter | scripts/mybgg/downloader.py:270-277 | A family is dropped exactly when the text before its first ":" is "Admin"; any other family passes unchanged. |
| Filters.IsPromoBox | scripts/mybgg/downloader.py:279-284 | A record is a promo box exactly when one of its families has id 39378. |
| Filters.CustomExpansionMappings | scripts/mybgg/downloader.py:258-267 | The code as written fails (KeyError) exactly when expansion 147101 or 147827 was not fetched. Otherwise each of the two gains one inbound link at the end of its expansion links, to 183394 and 165469, and nothing else changes. |
| Filters.CustomExpansionMappingsIfPresent | scripts/mybgg/downloader.py:258-267 | Corrected mappings: a fetched 147101 or 147827 gains its link and every other record stays as it was, so they never fail. |
| Filters.MappingsAgreeWhenBothFetched | scripts/mybgg/downloader.py:258-267 | The two versions agree whenever the code as written succeeds. The code as written fails on 147101 first, then on 147827. |
| Filters.BlankCollection | scripts/mybgg/downloader.py:219-236 | The catch-all owned edition: the given id as both id and collection id, the given name, no image, publisher 0, and no players, tags or plays. |
| Sorting.Uniq | scripts/mybgg/downloader.py:238-241 | `_uniq` yields one element per distinct id, in strictly ascending id order. The ids kept are exactly the input's, and each element kept is the first in the input with its id. |
| Sorting.SortBy | scripts/mybgg/downloader.py:239 | `sorted` with a key: a permutation of its input, ordered by key, that keeps the input order among equal keys (stable). |
| Editions.CollectionById | scripts/mybgg/downloader.py:60-63 | Every owned edition is filed under its id, in fetch order, with its player list emptied and every other field kept. |
| Editions.AddPlay | scripts/mybgg/downloader.py:65-68 | A play of an owned game adds its players to the first edition of that game only. Every other edition, every other field and every key is unchanged. |
| Editions.AddPlays | scripts/mybgg/downloader.py:65-68 | After all plays, the first edition of each game carries the players of all its plays in play order, and every other edition is unchanged. |
| Editions.OwnedEditions | scripts/mybgg/downloader.py:44-68 | One entry per owned edition, in fetch order and filed under its id, then the catch-all blank edition under 81913. Each entry is its fetched record in every field but the player list. |
| Editions.OwnedEditionsShape | scripts/mybgg/downloader.py:44-68 | The catch-all game 81913 is always owned. Each game's first edition carries exactly its plays' players, and its later editions carry none. |
| Editions.AccessoriesById | scripts/mybgg/downloader.py:50-52 | Every owned accessory is filed under its id, in fetch order. |
| Resolution.ById | scripts/mybgg/downloader.py:76-84 | Every fetched record of the kind is present under its id, keys in first-fetch order. Of two records with one id, the later one wins. |
| Resolution.NewCatalog | scripts/mybgg/downloader.py:70-86 | The catalog with the corrected mappings. Its game dict is exactly the fetched board games by id, later records winning; its expansion dict is the fetched expansions by id with the custom links added only to those expansions that were fetched. Every fetched board game and expansion is in its dict, and the accessory records are kept as fetched. |
| Resolution.NewCatalogAsWritten | scripts/mybgg/downloader.py:70-86 | The catalog as line 86 builds it fails exactly when expansion 147101 or 147827 was not fetched, with KeyError 147101 when 147101 is missing. Otherwise it is the corrected catalog. |
| Resolution.Promote | scripts/mybgg/downloader.py:88-90 | Exactly the promo boxes join the game dict, each held as its expansion record, and every other entry is kept. |
| Resolution.StartGames | scripts/mybgg/downloader.py:76-90 | The game dict before linking holds exactly the board games and the promo boxes. |
| Resolution.LinkExpansions | scripts/mybgg/downloader.py:91-94 | The expansion loop changes only the expansion lists: the game dict, the accessory lists and the cleared polls are as they were. |
| Resolution.LinkExpansionsFiles | scripts/mybgg/downloader.py:91-94 | After the loop, each expansion is on the list of every fetched expansion it links to inbound. |
| Resolution.LinkExpansionsOnly | scripts/mybgg/downloader.py:91-94 | The loop puts nothing else on any list. |
| Resolution.LinkAccessory | scripts/mybgg/downloader.py:96-108 | One accessory fails (KeyError) exactly when it has no inbound link to a held record and the catch-all game is not held. The game dict and the expansion lists stay as they were. |
| Resolution.LinkAccessories | scripts/mybgg/downloader.py:96-108 | The accessory loop fails, always with KeyError 81913, exactly when the catch-all game is not held and some accessory has no inbound link to a held record. It changes only the accessory lists. |
| Resolution.LinkAccessoriesFiles | scripts/mybgg/downloader.py:96-108 | After the loop, each accessory is on the list of every record its inbound links file it under, or on the catch-all game's list when it has none. |
| Resolution.LinkAccessoriesOnly | scripts/mybgg/downloader.py:96-108 | The accessory loop puts nothing else on any list. |
| Resolution.AttachOne | scripts/mybgg/downloader.py:110-128 | One expansion fails exactly when it has no inbound link to a held record and the catch-all game is not held. An orphan's poll is cleared, and only an orphan's. |
| Resolution.AttachExpansions | scripts/mybgg/downloader.py:110-128 | The attach loop fails, always with KeyError 81913, exactly when the catch-all game is not held and some expansion has no inbound link to a held record. The game dict stays as it was. |
| Resolution.AttachExpansionsClears | scripts/mybgg/downloader.py:123-125 | The attach loop clears the poll of exactly the orphan expansions. |
| Resolution.AttachExpansionsFiles | scripts/mybgg/downloader.py:110-128 | After the loop, each expansion goes to every record it belongs to: each held game it links to inbound (unless it is a promo box), or the catch-all game when it is an orphan. What was gathered under it goes along. |
| Resolution.AttachExpansionsOnlyExps | scripts/mybgg/downloader.py:110-128 | Anything new on an expansion list is such an expansion, or was gathered under one. |
| Resolution.AttachExpansionsOnlyAccs | scripts/mybgg/downloader.py:110-128 | Anything new on an accessory list came from the list of such an expansion. |
| Resolution.LinkPass | scripts/mybgg/downloader.py:88-128 | The linking pass fails exactly when the catch-all game is not held and some accessory or expansion is an orphan, and then with KeyError 81913. The game dict is the one promotion built. |
| Resolution.LinkClosed | scripts/mybgg/downloader.py:88-128 | Every id the pass files names a fetched record, and only promo boxes are held as expansion records. |
| Resolution.LinkSucceedsWithCatchAll | scripts/mybgg/downloader.py:107-128 | Linking cannot fail when the catch-all game's record was fetched as a board game. |
| Resolution.LinkClearsOrphans | scripts/mybgg/downloader.py:110-128 | The whole pass clears the poll of exactly the expansions with no inbound link to a held record. |
| Resolution.AccessoryPlaced | scripts/mybgg/downloader.py:96-128 | At the end, each accessory is on the list of every record it goes to. |
| Resolution.ExpansionPlaced | scripts/mybgg/downloader.py:110-128 | At the end, each expansion is on the list of every game it goes to. |
| Resolution.PromoBoxNests | scripts/mybgg/downloader.py:88-128 | A promo box linked to a non-promo expansion of a held game ends up on that game's expansion list, although it is also a game of its own. |
| Building.NewBoardGameConstructs | scripts/mybgg/models.py:8-38 | The entity constructor keeps the record's id and the given edition, expansions and accessories, and whether it succeeds does not depend on the edition. |
| Building.EditionEntities | scripts/mybgg/downloader.py:138-140 | One entity per owned edition of a record, in edition order. Each has that record's id and that edition, and no children. Either all succeed or the first fails. |
| Building.RecordEntities | scripts/mybgg/downloader.py:138-140 | Building a record's entities fails when the record has no owned edition (KeyError) or its entity cannot be built. Otherwise there is at least one entity, each for an owned edition of the record. |
| Building.Entities | scripts/mybgg/downloader.py:137-146 | A child list succeeds exactly when every record's entities do. |
| Building.EntityIsOwnedEdition | scripts/mybgg/downloader.py:137-146 | Each child entity is an owned edition of one of the records, with no children of its own. |
| Building.EntitiesCoverRecord | scripts/mybgg/downloader.py:137-146 | Every record of a built child list is owned and has an entity. |
| Building.ExpansionsOf | scripts/mybgg/downloader.py:139 | `_uniq` of a game's expansions: exactly the expansions filed under it, in strictly ascending id order (so one per id), each the expansion record of its id. |
| Building.AccessoriesOf | scripts/mybgg/downloader.py:144 | `_uniq` of a game's accessories: records filed under it, every id filed under it kept, in strictly ascending id order, each the first record filed with its id. |
| Building.GatheredExpansions | scripts/mybgg/downloader.py:133-141 | A game's gathering holds every expansion filed under it, and only those. |
| Building.GatheredAccessories | scripts/mybgg/downloader.py:133-146 | A game's gathering holds every accessory filed under it, and only those. |
| Building.BuildGame | scripts/mybgg/downloader.py:133-147 | A built game has its record's id and the owned edition it was built for. |
| Building.BuildGameExpansion | scripts/mybgg/downloader.py:137-141 | Each expansion a built game carries is an owned edition of a gathered expansion record. |
| Building.BuildGameCoversExpansions | scripts/mybgg/downloader.py:137-141 | Every gathered expansion record is owned and appears among the built game's expansions. |
| Building.BuildGameAccessory | scripts/mybgg/downloader.py:142-146 | Each accessory a built game carries is an owned edition of a gathered accessory record. |
| Building.BuildGameCoversAccessories | scripts/mybgg/downloader.py:142-146 | Every gathered accessory record is owned and appears among the built game's accessories. |
| Building.HeldEditions | scripts/mybgg/downloader.py:131 | Exactly the owned editions whose game is held. |
| Building.HeldEditionsConcat | scripts/mybgg/downloader.py:131 | The filter keeps owned order: the held editions of two lists of entries are those of the first, then those of the second. |
| Building.HeldEditionsOfOne | scripts/mybgg/downloader.py:131 | A single owned edition is kept exactly when its game is held. |
| Building.Assemble | scripts/mybgg/downloader.py:131-149 | The entities are built over exactly the held owned editions, in owned order. The pass succeeds exactly when every held edition's entity can be built, and each entity is built from the gathering of its game. |
| Building.Resolve | scripts/mybgg/downloader.py:44-149 | The pass with the corrected mappings succeeds exactly when the linking pass succeeds and the entities of its held editions can be built; a failed linking pass fails it. On success there is one entity per owned edition (with the catch-all's blank one, and plays filed) whose game the linking pass holds, in owned order, each with that edition's id and image, and each exactly what the record constructor builds from the gathering of its game in the closed linking pass, for its edition. |
| Building.BuildHeld | scripts/mybgg/downloader.py:131-149 | After linking, the entities are built exactly when every held owned edition's entity can be built from its game's gathering. Then there is one entity per held owned edition, in owned order, each with its edition's id and image, carrying the gathering of its own game, whose record has that id, and exactly what the record constructor builds from it for that edition. |
| Building.ResolveSucceeds | scripts/mybgg/downloader.py:44-149 | End to end: the pass up to the entities succeeds exactly when linking succeeds and every held owned edition's entity can be built from its game's gathering. |
| Building.ResolveAsWritten | scripts/mybgg/downloader.py:44-149 | The pass as written fails (KeyError 147101 first) unless both custom-mapped expansions were fetched; with both fetched it is the corrected pass. |
| Cleanup.PrefixRemoved | scripts/mybgg/downloader.py:336-342 | A cleaned name is empty exactly when the original is. |
| Cleanup.RenamedEntities | scripts/mybgg/downloader.py:153-156 | Element i is element i of the input with its name cleaned. |
| Cleanup.CleanEntities | scripts/mybgg/downloader.py:153-156 | The expansions or accessories renamed and then stably sorted by name (lines 185-186): the same multiset as the renamed list, in name order, with entities of equal name in their input order. |
| Cleanup.RenamedInbound | scripts/mybgg/downloader.py:157-161 | Element i is the i-th inbound compilation, renamed: exactly the inbound compilations, in their order. |
| Cleanup.CleanContained | scripts/mybgg/downloader.py:157-162 | The renamed inbound compilations stably sorted by name (lines 162 and 187): the same multiset, in name order, equal names in input order. |
| Cleanup.SortLinks | scripts/mybgg/downloader.py:185-192 | A stable sort of links by name: the same multiset, in name order, equal names in input order. |
| Cleanup.ArticleMovedLink | scripts/mybgg/downloader.py:172-175 | Moving a link's article fails exactly on a name made only of spaces. Only the name changes. |
| Cleanup.MovedLinks | scripts/mybgg/downloader.py:172-175 | Fails exactly when some name is made only of spaces; otherwise element i is link i with its article moved. |
| Cleanup.OwnedLinks | scripts/mybgg/downloader.py:164-167 | Exactly the integrated games that are owned. |
| Cleanup.CleanLinks | scripts/mybgg/downloader.py:172-175 | The links with articles moved, stably sorted by name (lines 191-192): the same multiset, in name order, equal names in input order. They fail exactly when some name is made only of spaces. |
| Cleanup.CleanIntegrates | scripts/mybgg/downloader.py:164-170 | The owned integrated games with articles moved, stably sorted by name: the same multiset, in name order, equal names in input order. They fail exactly when an owned one has a name made only of spaces. |
| Cleanup.CleanFamilies | scripts/mybgg/downloader.py:177-182 | The non-"Admin" families stably sorted by name (line 188): the same multiset, in name order, equal names in input order. |
| Cleanup.CleanupGame | scripts/mybgg/downloader.py:151-192 | The corrected clean-up of one game fails exactly on an unmovable link name or a game with no owned edition. It changes only the cleaned lists. Expansions, accessories, compilations, families, integrated games and reimplementations are each exactly their clean-up function's result on the game's own list, and the publishers are filtered against the game's first owned edition. |
| Cleanup.CleanupGameSorted | scripts/mybgg/downloader.py:185-192 | Every cleaned list is sorted by name. |
| Cleanup.CleanupGameKeeps | scripts/mybgg/downloader.py:153-182 | Every accessory is renamed and kept, and every kept one is a renamed accessory. Every inbound compilation is kept renamed, and every non-"Admin" family is kept. |
| Cleanup.CleanupGameMoves | scripts/mybgg/downloader.py:164-175 | Every owned integrated game and every reimplementation link has its article moved and is kept. |
| Cleanup.MovedAllKept | scripts/mybgg/downloader.py:164-175 | Each link a successful link clean-up was given is kept with its article moved, restricted to owned games for integrations. |
| Cleanup.CleanupAsWritten | scripts/mybgg/downloader.py:151-192 | The clean-up as written fails on every non-empty list of games. |
| Cleanup.CleanupAsWrittenFailsOnPlainGame | scripts/mybgg/downloader.py:164-165 | An owned game with no children fails at `game.integrates` in the code as written, while the corrected clean-up handles it. |
| Cleanup.CleanupAll | scripts/mybgg/downloader.py:151-192 | One cleaned game per built entity: game i is exactly the clean-up of entity i with the lists of the record it was built from. The pass fails exactly when the clean-up of some entity fails. |
| Cleanup.LinksOf | scripts/mybgg/downloader.py:164-175 | The lists a record supplies to the clean-up: its alternate names, integrated games and reimplementations, and an empty reimplemented-by list. |
| Cleanup.CollectionPass | scripts/mybgg/downloader.py:44-195 | The corrected pass, built on the corrected mappings: one cleaned game per built entity, keeping its id, its owned edition and its record's alternate names. |
| Cleanup.CollectionPassCleans | scripts/mybgg/downloader.py:151-195 | When the entities build, the pass returns exactly the clean-up of each entity with its record's lists, and fails exactly when one of those fails. |
| Cleanup.CollectionPassAsWritten | scripts/mybgg/downloader.py:44-195 | The pass as written succeeds exactly when its catalog builds and it builds no game at all. Without expansion 147101 or 147827 it fails, with KeyError 147101 when 147101 is missing. |
| Cleanup.EmptyCollectionAsWritten | scripts/mybgg/downloader.py:86 | Even an empty collection fails as written, with KeyError 147101. |
| Models.ArticleMovedName | scripts/mybgg/models.py:11-16 | The constructor's name: a leading article moves to the end, as move_article_to_end does for any non-empty name. A name without words fails (IndexError). |
| Models.AddExpansionCounts | scripts/mybgg/models.py:49-53 | The record's own counts come first and unchanged. Each expansion count label not already present is appended once, tagged "expansion". |
| Models.AddExpansionCountsSnoc | scripts/mybgg/models.py:49-53 | One more expansion label is appended exactly when it is not already a label. |
| Models.MergedLabelsAre | scripts/mybgg/models.py:49-53 | The merged labels are exactly the record's and the expansions'. |
| Models.AddExpansionCountsInOrder | scripts/mybgg/models.py:49-53 | The appended counts are the new labels in order of first occurrence, as an independent deduplication lists them. |
| Models.SortPlayerCounts | scripts/mybgg/models.py:55 | Sorting fails (ValueError) exactly when some label is not an integer once "+" is removed. Otherwise it is a permutation, non-decreasing by that integer and stable. |
| Models.NumPlayersMerge | scripts/mybgg/models.py:46-56 | Every pair of the record's poll survives. Every expansion count label is present. Every added pair is tagged "expansion", is new and occurs once. |
| Models.CalcNumPlayers | scripts/mybgg/models.py:46-56 | Fails exactly when some label of the merged poll is not an integer once "+" is removed. Otherwise it is the merged poll stably sorted by that integer: the same multiset, non-decreasing, equal counts in merge order. |
| Models.PlaytimeBucket | scripts/mybgg/models.py:59-72 | The bucket is the label of the first bound among 30, 60, 120, 180 and 240 strictly above the minutes, or "> 4h". |
| Models.PlaytimeBucketMonotone | scripts/mybgg/models.py:58-72 | A longer game never lands in a shorter bucket. |
| Models.CalcPlayingTime | scripts/mybgg/models.py:58-72 | A missing time is "Unknown", a time that is not an integer fails (ValueError), and any other time gets the bucket of its minutes. |
| Models.RoundHalfEven | scripts/mybgg/models.py:115 | The nearest integer; on a tie, the even one. |
| Models.ParseDecimal | scripts/mybgg/models.py:78 | `Decimal(text)`: a number gives that finite decimal, NaN or Infinity gives that special value, and any other text fails. |
| Models.CalcWeight | scripts/mybgg/models.py:104-115 | A missing weight is "Unknown". Otherwise each label holds exactly for its interval of weights under round-half-even. A weight that rounds outside -1..5 fails (KeyError). Text that is not a decimal fails (InvalidOperation), and NaN or Infinity cannot be rounded (ValueError, OverflowError). |
| Models.CalcRank | scripts/mybgg/models.py:74-78 | No rank for a missing value or "Not Ranked". A number, NaN or Infinity gives that decimal. Other text fails (InvalidOperation) naming the text. |
| Models.DecimalOrZero | scripts/mybgg/models.py:80-90 | usersrated and numowned: 0 when missing, else the decimal, NaN and Infinity included. Other text fails naming the text. |
| Models.DecimalOrNone | scripts/mybgg/models.py:92-102 | rating and average: no value when missing, else the decimal, NaN and Infinity included. Other text fails naming the text. |
| Models.NewBoardGame | scripts/mybgg/models.py:8-38 | The entity is built exactly when every derived field can be computed. It has the record's id, moved name, description, publishers, families, compilations, categories, mechanics, artists and designers, the given edition and children, and no tags, plays or previous players. Players, weight, playing time, rank and the statistics are their calculators' results. |
| Models.IntHash | scripts/mybgg/models.py:40-41 | CPython's integer hash: congruent to the id modulo 2^61-1 (and -2 where that would be -1), never -1, and of the id's sign. |
| Models.GameHash | scripts/mybgg/models.py:40-41 | Never -1, less than 2^61-1 in size, of the id's sign, and the id itself for an id from 0 to 2^61-2. |
| Models.SameGame | scripts/mybgg/models.py:43-44 | Games equal by id hash alike, and every game equals itself. |
| Models.EqualGamesHashAlike | scripts/mybgg/models.py:40-44 | Games equal by id hash alike. |
| Hooks.VoteKey | scripts/mybgg/bgg_client.py:178 | The key has the value's length: each space becomes "_" and every other character is lower-cased. |
| Hooks.Tally | scripts/mybgg/bgg_client.py:178 | Every vote's key is in the dict, and each key holds the count of the last vote with that key. |
| Hooks.LastWins | scripts/mybgg/bgg_client.py:178 | The vote dict has every key, each holding the value of the last vote filed under it. |
| Hooks.Recommend | scripts/mybgg/bgg_client.py:183-191 | "not_recommended" exactly when best + recommended ≤ not_recommended. "best" exactly when it is recommended, best > 10 and best > recommended. "recommended" otherwise. |
| Hooks.MoreBestNeverWeakens | scripts/mybgg/bgg_client.py:183-191 | More "best" votes never weaken the outcome. |
| Hooks.MoreNotRecommendedNeverStrengthens | scripts/mybgg/bgg_client.py:183-191 | More "not recommended" votes never strengthen the outcome. |
| Hooks.MoreRecommendedCanWeaken | scripts/mybgg/bgg_client.py:187 | More "recommended" votes can turn "best" into "recommended". |
| Hooks.NumplayersToResult | scripts/mybgg/bgg_client.py:177-191 | An empty poll is "not_recommended". A poll missing one of the three results fails (KeyError). Otherwise the outcome is the decision on its tallies. |
| Hooks.SuggestedNumplayers | scripts/mybgg/bgg_client.py:193-205 | No "not_recommended" entry survives and the counts keep their order. A single survivor is relabelled "best". |
| Hooks.AgeConversion | scripts/mybgg/bgg_client.py:207-208 | Succeeds exactly when the first two characters are an integer, and then gives that integer, between -9 and 99. Otherwise it fails (ValueError) naming them. |
| Hooks.AgeReadsTwoCharacters | scripts/mybgg/bgg_client.py:207-208 | Only the first two characters count. |
| Hooks.AgeOfLeadingNumber | scripts/mybgg/bgg_client.py:207-208 | A value such as "21 and up" or "8" gives its leading number. |
| Hooks.SuggestedPlayerage | scripts/mybgg/bgg_client.py:210-214 | Exactly the age votes with at least one vote are kept. |
| Hooks.SuggestedPlayerageConcat | scripts/mybgg/bgg_client.py:210-214 | The kept votes stay in poll order. |
| Hooks.StatusTags | scripts/mybgg/bgg_client.py:140-141 | The tags are exactly the status keys whose value is "1". |
| Hooks.StatusTagsConcat | scripts/mybgg/bgg_client.py:140-141 | The tags keep the order of the status keys. |
| Hooks.PlayerName | scripts/mybgg/bgg_client.py:114-115 | The player's name when present, else "Unknown". |
| Hooks.Chunks | scripts/mybgg/bgg_client.py:53-55 | The chunks concatenate back to the ids. Each has 1 to 100 ids, and all but the last have exactly 100. |
| Hooks.GameList | scripts/mybgg/bgg_client.py:48-50 | No ids, no request and no records. |
| Hooks.BatchingIsInvisible | scripts/mybgg/bgg_client.py:48-63 | When a request answers each id with its record, batching is invisible: the records of all ids, in order. |
| Text.ReplaceCharByChar | scripts/mybgg/bgg_client.py:178 | Replacing one character by another changes exactly the positions holding it and keeps every other character. |

## Left out

- HTTP, caching, retries and status-code handling (`bgg_client.py` lines 11-111), debug logging, `prettify_if_xml` and `Downloader.__init__` are left out: they are network I/O and foreign libraries.
- The fetch calls at the start of `Downloader.collection` (lines 28-58) are left out. Their results are the parameters of `Building.Resolve` and `Cleanup.CollectionPass`.
- Building.Resolve and Cleanup.CollectionPass use the corrected custom mappings (see Findings): they succeed on collections where the code as written raises KeyError at line 86. `Building.ResolveAsWritten` and `Cleanup.CollectionPassAsWritten` follow the code as written.
- The declxml schema and XML parsing are left out. The hooks take already-parsed values, and records arrive as `Records.Detail`.
- `html.unescape` is not modelled: the description is kept as given.
- `Decimal` string parsing is not modelled. A statistic arrives as `Records.NumText`: blank, an exact rational, one of the special values (NaN, sNaN, Infinity with their signs), or other text (which fails). Decimal precision and context rounding are not modelled: a finite value is an exact rational.
- Hooks.VoteKey: lower-cases ASCII letters only, where Python's `str.lower` (bgg_client.py line 178) lower-cases every cased character.
- The regexes and lower-casing in `remove_prefix` are simplified:
  - case-insensitivity and `lower` are ASCII-only;
  - `\W` uses ASCII letters, digits and `_` plus non-ASCII characters outside General Punctuation that are not space, not the Unicode database;
  - `.` stops at a line break, as in Python without DOTALL.
- `Text.ParseInt` does not accept the underscores between digits or the non-ASCII digits that Python's `int()` accepts.
- The in-place sharing of compilation, integration and publisher dicts is not modelled. When two owned editions are built from one record, Python renames their shared compilation dicts twice and keeps publisher flags across editions. The model cleans each entity's lists independently.
- `_uniq` runs once per held game, not once per owned edition: its result depends only on the game.
- The reimplemented-by list is empty for every game: the catalog schema has no such list.
- Title-alias derivation (text before an em-dash, colon or parenthesis, manual alias tables) and edition-name overrides are not part of this model: the modelled files have no such code. The owner titles are the record's alternate names.
- Building.BuildGame: states only the id and the edition. The children are stated by `Building.BuildGameExpansion`, `Building.BuildGameCoversExpansions`, `Building.BuildGameAccessory` and `Building.BuildGameCoversAccessories`.
- Hooks.GameList: states only the empty case; `Hooks.Chunks` and `Hooks.BatchingIsInvisible` state the batching.
- Titles.FindFrom: models only the two fixed patterns of `remove_prefix` (optional space run, optional "(", a literal, optional rest of line), not regular expressions in general.
- Python's `sorted` on a list that mixes strings and integers raises TypeError. The model never sorts such a list.
- Promo boxes can appear nested under a game, which `Resolution.PromoBoxNests` exhibits. This happens when a promo box expands a non-promo expansion of that game: line 119 carries the expansion's gathered list along. The model follows the code here rather than the expectation that promo boxes only appear at the top level.
- The constructor's `tags`, `numplays` and `previous_players` keep their defaults, because the pass never passes them. The `image` parameter receives the owned-edition record (line 135), as written.
- `app.js` and `scripts/download_and_index.py` are left out: they are a browser UI and indexing orchestration.

## Findings

| source | as written | input that shows it | evidently intended | confidence | as-written member | corrected member |
|---|---|---|---|---|---|---|
| scripts/mybgg/downloader.py:164-175 | The clean-up reads `game.integrates`, `game.reimplements`, `game.reimplementedby` and, in `remove_prefix` (line 318), `game_details.alternate_names`. The `BoardGame` constructor (models.py:8-38) sets none of these attributes, so the first game raises AttributeError. | Any collection in which one owned game is built. For example, a game with no expansions, accessories or compilations fails at `game.integrates`. | Read those four lists from the catalog record the entity was built from, and clean every game. | not executed; high | Cleanup.CleanupAsWritten | Cleanup.CleanupGame |
| scripts/mybgg/downloader.py:262-265 | `custom_expansion_mappings` indexes expansions 147101 and 147827 unconditionally; `Resolution.NewCatalogAsWritten` and `Cleanup.CollectionPassAsWritten` carry this through the pass. | A collection whose fetched expansions do not include Original Tuscany (147101): KeyError 147101 before anything is built. | Add each custom link only when that expansion was fetched. | not executed; medium | Filters.CustomExpansionMappings | Filters.CustomExpansionMappingsIfPresent |
