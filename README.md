# Sutekh core in Dafny

A model of the core of Sutekh, a card-collection manager for the
Vampire: the Eternal Struggle card game, with proofs about that model. Sutekh
keeps a catalogue of abstract cards and their printings (physical cards).
Users sort their cards into card sets that form a tree. They filter and group
card lists, count what a set holds, and simulate opening hands and card
draws. Around that core sit parsers, a database upgrade that copies every
set into a fresh database, and helpers that turn names into file names and
addresses.

Each module follows one source file:

- `Wrappers` holds `Option` and `Result`. `PyStr` models the Python string
  operations the source uses: `replace`, `lower`, `strip`, `split`, `int()`,
  SQL `LIKE` and sorting.
- `Cards` holds the catalogue records as values. `Objects` covers catalogue
  lookup, get-or-create and the discipline-pair adapter cache.
- `Utility` covers quote escaping, safe file names, XML quote
  normalisation and the article moves. `SutekhUtility`
  covers card text formatting, the crypt and vampire tests, and the
  Monger and Secret Library addresses.
- `Filters` is the filter algebra: filters as predicates over card records,
  their constructors, value lists, the card-function filter and the
  best-guess filter.
- The card-set modules:
  - `CardSetGraph` is the parent relation, with loop detection and breaking.
  - `CardSets` is the set and membership tables as a class.
  - `CardSetHolder` is the staging holder.
  - `CardSetMembership` counts membership.
  - `CardSetFunctions` covers reparenting, deletion, import and start-up
    loop breaking.
- `DatabaseUpgrade` and `UpgradeResults` model the generic upgrade. Sets
  are copied parents first, holders are made from old sets, and the per-table
  results are folded together.
- `BaseGroupings` and `Groupings` form card lists into keyed groups.
  `CardListTabulator` builds property tables.
- `CountCardSetCards` and `CountWWListCards` keep the running card counts
  shown under card lists.
- `BaseOpeningDraw`, `OpeningDrawSimulator` and `CardDrawSimulator` are the
  draw simulators. Randomness is a choice the caller supplies.
- `CSVParser` is the CSV card-list reader. `PhysicalCardMapping` is the
  holder that maps physical cards to card sets.
- `DataPack` locates data packs. `IconManager` and `CachedIconManager` name,
  crop and cache icons. `CardImages` builds the card image paths and
  addresses.

State the source changes in place is a class with `modifies` clauses, for
example the card-set tables, the holders, the counters, the simulators and
the icon caches. Every such method is specified by a function of the old
state. Loops in the source are `while` loops with invariants. Pure code is
functions with lemmas beside them.

## Model

| member | source | states |
|---|---|---|
| Utility.EscapeQuotesOneChar | sutekh/sutekh/generic/Utility.py:20-27 | escaping a single character agrees with the character-by-character reference definition of escaping |
| Utility.EscapeQuotesIsEscaped | sutekh/sutekh/generic/Utility.py:20-27 | `escape_quotes` doubles every backslash and puts a backslash before every `'` and `"`, for every string |
| Utility.EscapedHead | sutekh/sutekh/generic/Utility.py:30-36 | escaped text never starts with a bare `'`, and with `'` already undone never with a bare `"`: every quote follows its escaping backslash |
| Utility.UnescapeSingle | sutekh/sutekh/generic/Utility.py:37 | undoing `\'` in escaped text restores the single quotes and leaves backslashes and `"` escaped |
| Utility.UnescapeDouble | sutekh/sutekh/generic/Utility.py:38 | undoing `\"` next restores the double quotes and leaves only the doubled backslashes |
| Utility.UndoDoubled | sutekh/sutekh/generic/Utility.py:39-40 | collapsing `\\` undoes the doubling of backslashes |
| Utility.EscapeRoundTrip | sutekh/sutekh/generic/Utility.py:20-42 | `unescape_quotes(escape_quotes(s)) == s` for every string `s` |
| Utility.SafeFilenameChars | sutekh/sutekh/generic/Utility.py:67-76 | `safe_filename` keeps the length, turns exactly the spaces, `/` and `\` into `_` and keeps every other character in place |
| Utility.SafeFilenameIsSafe | sutekh/sutekh/generic/Utility.py:67-76 | a safe file name contains no space, `/` or `\` |
| Utility.NormXmlQuotesPlain | sutekh/sutekh/generic/Utility.py:134-139 | text without `&` is left unchanged by `norm_xml_quotes` |
| Utility.NormXmlQuotesEntity | sutekh/sutekh/generic/Utility.py:134-139 | the first `&apos;` becomes `'`, the text before it is kept and the rest is normalised in turn; nothing else changes |
| Utility.ArticlesRoundTrip | sutekh/sutekh/generic/Utility.py:177-201 | a name beginning with `The `, `An ` or `A ` survives `move_articles_to_back` followed by `move_articles_to_front` |
| Utility.RoundTripThe | sutekh/sutekh/generic/Utility.py:193-194 | `X, The` is moved back to `The X` |
| Utility.RoundTripAn | sutekh/sutekh/generic/Utility.py:195-196 | `X, An` is moved back to `An X`, and is not taken for `, the` |
| Utility.RoundTripA | sutekh/sutekh/generic/Utility.py:197-198 | `X, A` is moved back to `A X`, and is not taken for `, the` or `, an` |
| Utility.ArticleSuffixAnyCase | sutekh/sutekh/generic/Utility.py:193-194 | the suffix test ignores case: any spelling of `, the` moves to the front as `The ` |
| Cards.VampireIsCrypt | sutekh/sutekh/SutekhUtility.py:108-117 | a card with a type is a crypt card (`is_crypt_card`) exactly when its first type is Vampire or Imbued, and every vampire (`is_vampire`: first type Vampire) is a crypt card |
| Cards.MaxOf | sutekh/sutekh/core/Filters.py:366 | the catalogue maximum of a column is `None` exactly when no card has a value there, otherwise a value some card has and no card exceeds |
| SutekhUtility.TagNoBreak | sutekh/sutekh/SutekhUtility.py:102 | a `[xyz]` tag holds no line break |
| SutekhUtility.SplitTagsAt | sutekh/sutekh/SutekhUtility.py:102 | the first substitution of `format_text` keeps the length and only ever turns a space into a line break |
| SutekhUtility.JoinNotADisAt | sutekh/sutekh/SutekhUtility.py:104 | the second substitution keeps the length and only ever turns a line break into a space |
| SutekhUtility.FormatTextAt | sutekh/sutekh/SutekhUtility.py:99-104 | `format_text` keeps the length and only exchanges spaces and line breaks |
| SutekhUtility.SplitTagsFree | sutekh/sutekh/SutekhUtility.py:102 | text without a `.` passes the first substitution unchanged |
| SutekhUtility.JoinNotADisFree | sutekh/sutekh/SutekhUtility.py:104 | text without a line break passes the second substitution unchanged |
| SutekhUtility.SplitTagsKeepsNotADis | sutekh/sutekh/SutekhUtility.py:102 | the first substitution starts its result with ` is not a Dis` exactly when the text does |
| SutekhUtility.SplitAtTag | sutekh/sutekh/SutekhUtility.py:102 | at `. [xyz]` the first substitution puts a line break before the tag and resumes after it |
| SutekhUtility.JoinAtTag | sutekh/sutekh/SutekhUtility.py:104 | a line break before `[xyz] is not a Dis` becomes a space |
| SutekhUtility.JoinSkipsTag | sutekh/sutekh/SutekhUtility.py:104 | a line break before a tag followed by anything other than ` is not a Dis` stays |
| SutekhUtility.SplitBeforeTag | sutekh/sutekh/SutekhUtility.py:102 | text without a `.` followed by `. [xyz]` is split before the tag |
| SutekhUtility.JoinAfterDotSkips | sutekh/sutekh/SutekhUtility.py:104 | the line break put before an ordinary tag is kept by the second substitution |
| SutekhUtility.FormatTextSplits | sutekh/sutekh/SutekhUtility.py:99-104 | `. [xyz]` not followed by ` is not a Dis` becomes `.` line break `[xyz]`, the two sides formatted on their own |
| SutekhUtility.SplitBeforeNotADis | sutekh/sutekh/SutekhUtility.py:102 | the first substitution splits before a tag followed by ` is not a Dis` like before any other |
| SutekhUtility.JoinAfterDot | sutekh/sutekh/SutekhUtility.py:104 | the second substitution turns that line break back into a space |
| SutekhUtility.FormatTextRejoins | sutekh/sutekh/SutekhUtility.py:99-104 | `. [xyz] is not a Dis…` stays on one line: the split is undone |
| SutekhUtility.MongerHostPlain | sutekh/sutekh/SutekhUtility.py:139-144 | the fixed parts of the Monger links hold no space and no `%` |
| SutekhUtility.MongerPagesPlain | sutekh/sutekh/SutekhUtility.py:139-144 | the vampire page and the card page differ at a fixed position |
| SutekhUtility.SecretHostPlain | sutekh/sutekh/SutekhUtility.py:156-163 | the fixed parts of the Secret Library links hold no space and no `"` |
| SutekhUtility.SecretPagesPlain | sutekh/sutekh/SutekhUtility.py:156-163 | the `crypt=` and `lib=` queries differ at a fixed position |
| SutekhUtility.MoveArticlesKeepsOut | sutekh/sutekh/SutekhUtility.py:135 | moving the article to the back adds no character other than those of `, The`, `, An` and `, A` |
| SutekhUtility.EscapeSpacesBack | sutekh/sutekh/SutekhUtility.py:146 | writing spaces as `%20` is undone by reading `%20` back, for text with no `%` of its own |
| SutekhUtility.SiteNameKeepsOut | sutekh/sutekh/SutekhUtility.py:135-140 | a card name without `%` gives a site name without `%` |
| SutekhUtility.MongerUrlShape | sutekh/sutekh/SutekhUtility.py:133-147 | a Monger link has no spaces, uses the vampire page exactly for vampires, ends in ` ADV` (escaped) for advanced vampires with ` (Advanced)` removed, and with `%20` read back is page, article-moved name and suffix |
| SutekhUtility.SecretLibraryUrlShape | sutekh/sutekh/SutekhUtility.py:150-168 | a Secret Library link has no spaces and no `"`, uses `crypt=` exactly for vampires and `lib=` otherwise, and ends in `+Adv` for advanced vampires |
| SutekhUtility.SecretLibraryUrlChars | sutekh/sutekh/SutekhUtility.py:164-167 | the link holds exactly the characters of the unescaped link other than spaces and `"`, with `+` where there was a space |
| Objects.ByCanonicalName | sutekh/sutekh/core/Objects.py:466 | the lookup by canonical name returns a stored card with that canonical name, and `None` only when no card has it |
| Objects.ByCanonicalNameUnique | sutekh/sutekh/core/Objects.py:466 | with unique canonical names the lookup returns the one card that has the key |
| Objects.LookupAbstractCardSpec | sutekh/sutekh/core/Objects.py:461-474 | the card lookup succeeds exactly when the lower-cased name is a canonical name, or when moving the articles to the front changes the name and the lower-cased result is one; a direct hit wins, and a name the move leaves unchanged is not retried |
| Objects.LookupArticleAtBack | sutekh/sutekh/core/Objects.py:467-472 | a name with its article at the back, in any case, finds the card stored with the article at the front when the name as written is not stored |
| Objects.NewCard | sutekh/sutekh/core/Objects.py:349-351 | a created card's canonical name is the stripped name lower-cased, its name the stripped name and its text empty |
| Objects.MakeAbstractCardPaddedName | sutekh/sutekh/core/Objects.py:345-351 | as written, `make_abstract_card("Foo ")` with `foo` stored misses on lookup and then tries to insert a second `foo`, which the unique canonical name refuses |
| Objects.PaddedNameStrips | sutekh/sutekh/core/Objects.py:349 | stripping `Foo ` gives `Foo` |
| Objects.PaddedNameLowers | sutekh/sutekh/core/Objects.py:350 | the padded name lower-cases to `foo `, which ends in no article (also lines 466-469) |
| Objects.MakeAbstractCard | sutekh/sutekh/core/Objects.py:345-351 | get-or-create: always succeeds, keeps canonical names unique, returns the looked-up card when the lookup hits; on a miss the card returned has the stripped, lowercased canonical name, and a new card is appended exactly when the lookup misses and no stored card has that canonical name |
| Objects.MakeAbstractCardIdempotent | sutekh/sutekh/core/Objects.py:345-351 | a second call with the same name creates nothing and returns the card the first call gave |
| Objects.FindDiscipline | sutekh/sutekh/core/Objects.py:392-400 | the discipline lookup returns a stored discipline of that name, `None` only when there is none |
| Objects.FindPair | sutekh/sutekh/core/Objects.py:450-451 | `selectBy(discipline, level).getOne()` returns a stored pair with that discipline and level, `None` only when there is none |
| Objects.FindPairUnique | sutekh/sutekh/core/Objects.py:134 | with the unique (discipline, level) index the lookup returns the one stored pair |
| Objects.MakeDiscipline | sutekh/sutekh/core/Objects.py:331-333 | get-or-create by name: the tables stay valid, only a new discipline is appended, and the result has the name asked for |
| Objects.FindDisciplineAppend | sutekh/sutekh/core/Objects.py:331-333 | appending a discipline of another name leaves earlier lookups unchanged |
| Objects.MakeDisciplinePair | sutekh/sutekh/core/Objects.py:353-358 | get-or-create on (discipline, level): the stored pair when there is one, otherwise a new pair of that discipline and level; a level other than inferior or superior is refused; the tables stay valid (also lines 133-134) |
| Objects.NoPairYet | sutekh/sutekh/core/Objects.py:355-357 | when the pair lookup misses, the discipline got or made has no pair at that level |
| Objects.AddPair | sutekh/sutekh/core/Objects.py:358 | a new pair at a valid level keeps the pair table valid and takes the next id (also lines 133-134) |
| Objects.FindPairAppend | sutekh/sutekh/core/Objects.py:358 | after appending a pair, it is the one found for its key |
| Objects.FindPairKeep | sutekh/sutekh/core/Objects.py:358 | appending a pair leaves every lookup that already succeeded unchanged |
| Objects.CacheSurvivesMake | sutekh/sutekh/core/Objects.py:437-455 | a pair cache that agrees with the tables still agrees after `make_discipline_pair` |
| Objects.DisciplinePairCache.MakeObjectCache | sutekh/sutekh/core/Objects.py:439-441 | `make_object_cache` empties the pair cache |
| Objects.DisciplinePairCache.Lookup | sutekh/sutekh/core/Objects.py:443-455 | the adapter raises on an unknown discipline or a missing pair and caches nothing then; otherwise it answers with the stored pair, from the cache on a repeat, and the cache gains at most that key |
| Objects.Flushed | sutekh/sutekh/core/Objects.py:508-510 | a flush empties a cached join and leaves any other join as it is |
| Objects.ObjectCaches.FlushCache | sutekh/sutekh/core/Objects.py:506-514 | `flush_cache` flushes every cached join, and empties the adaptor caches exactly when `bMakeCache` holds |
| Objects.ObjectCaches.MakeAdaptorCaches | sutekh/sutekh/core/Objects.py:492-503 | `make_adaptor_caches` empties every adaptor cache |
| Filters.Select | sutekh/sutekh/core/Filters.py:331-345 | a filter selects exactly the catalogue positions whose card it matches |
| Filters.SelectBoxes | sutekh/sutekh/core/Filters.py:624-654 | an AND box selects the intersection, an OR box the union and a NOT the complement within the catalogue |
| Filters.ParseIntsFails | sutekh/sutekh/core/Filters.py:355-361 | converting a value list with `int` fails exactly when some value that is not skipped is not an integer |
| Filters.ParseIntsMembers | sutekh/sutekh/core/Filters.py:355-361 | the converted list holds exactly the integer values of the words that are not skipped |
| Filters.RemoveFirst | sutekh/sutekh/core/Filters.py:450-452 | `list.remove(x)` drops one occurrence of `x` and keeps the rest |
| Filters.Range | sutekh/sutekh/core/Filters.py:367 | `range(lo, hi)` holds `lo`, `lo + 1`, … below `hi` |
| Filters.InRange | sutekh/sutekh/core/Filters.py:367 | membership in `range(lo, hi)` is `lo <= x < hi` |
| Filters.Strs | sutekh/sutekh/core/Filters.py:367 | `[str(x) for x in xs]` has one text per value |
| Filters.ParseIntsCons | sutekh/sutekh/core/Filters.py:355-361 | a kept word that parses puts its value in front of the rest |
| Filters.ParseStrs | sutekh/sutekh/core/Filters.py:366-367 | the decimal texts of a list of numbers convert back to that list (also lines 408-409, 460-461) |
| Filters.NumberNotSkipped | sutekh/sutekh/core/Filters.py:358-361 | the text of a number is never the skipped word (`Any` or `X`) |
| Filters.ParseSkipOnly | sutekh/sutekh/core/Filters.py:358-361 | a list holding only the skipped word converts to nothing |
| Filters.MultiGroupMatches | sutekh/sutekh/core/Filters.py:355-372 | a multi-group filter selects exactly the cards whose group is one of the requested numbers, or -1 when `Any` was requested; a card without a group never |
| Filters.GroupValuesAccepted | sutekh/sutekh/core/Filters.py:363-367 | the legal group values `1..M` and `Any` are accepted, and select exactly the cards of group 1 to M or of any group |
| Filters.MultiCapacityLifeMatches | sutekh/sutekh/core/Filters.py:399-415 | a multi-capacity or multi-life filter selects exactly the cards whose value is one of the requested numbers (also lines 545-561) |
| Filters.OneToMaxParses | sutekh/sutekh/core/Filters.py:405-409 | the legal capacity and life values `1..M` convert back to the numbers 1 to M (also lines 551-555) |
| Filters.OneToMaxAccepted | sutekh/sutekh/core/Filters.py:405-409 | the legal capacity and life values are accepted and select exactly the cards with a value from 1 to M (also lines 551-555) |
| Filters.CostFilterMatches | sutekh/sutekh/core/Filters.py:423-434 | `CostFilter(0)` (or None) selects exactly the cards with a null cost, never cost 0 or X; any other cost selects that cost |
| Filters.NewMultiCostFilter | sutekh/sutekh/core/Filters.py:445-455 | the constructor's list building, step by step, gives the multi-cost filter |
| Filters.MultiCostShape | sutekh/sutekh/core/Filters.py:445-455 | the filter's list holds the converted costs and -1 for `X`, and a requested 0 is removed and becomes the null-cost flag |
| Filters.MultiCostMatches | sutekh/sutekh/core/Filters.py:445-472 | a null cost is selected exactly when 0 was requested, X exactly when `X` or -1 was, any other non-zero cost exactly when it was |
| Filters.CostValuesFilter | sutekh/sutekh/core/Filters.py:457-461 | the legal cost values `0..M` and `X` give the list 1..M, -1 and the null-cost flag |
| Filters.CostValuesAccepted | sutekh/sutekh/core/Filters.py:457-472 | the legal cost values are accepted and select exactly the cards with no cost, cost X or a cost from 1 to M |
| Filters.CostRangeMatches | sutekh/sutekh/core/Filters.py:463-472 | the filter on 1..M and X with the null-cost flag selects exactly those cards |
| Filters.CostTypeFilterMatches | sutekh/sutekh/core/Filters.py:479-489 | a cost-type filter is accepted exactly for blood, pool or conviction in any case, and selects the cards with the lower-cased cost type |
| Filters.LowerSome | sutekh/sutekh/core/Filters.py:500-505 | the lower-cased given types, with None left out |
| Filters.FirstUnknown | sutekh/sutekh/core/Filters.py:503-505 | the first listed cost type that is not known, `None` exactly when all are known |
| Filters.Somes | sutekh/sutekh/core/Filters.py:500-508 | the known types as column values |
| Filters.MultiCostTypeMatches | sutekh/sutekh/core/Filters.py:500-517 | the multi-cost-type filter is accepted exactly when every given type is known in some case; it keeps None in its list exactly when None was given; it selects exactly the cards whose cost type is one of the lower-cased types given |
| Filters.CostTypeValuesAccepted | sutekh/sutekh/core/Filters.py:510-517 | all legal cost types are accepted and select exactly the cards that have a cost type |
| Filters.LowerKeepsBraces | sutekh/sutekh/core/Filters.py:573-574 | lower-casing the pattern keeps or leaves out the braces |
| Filters.CardTextMatches | sutekh/sutekh/core/Filters.py:572-589 | a card-text filter selects exactly the cards whose lower-cased raw text (pattern with a brace) or lower-cased search text (otherwise) contains the lower-cased pattern |
| Filters.PairIdsOf | sutekh/sutekh/core/Filters.py:84-129 | the ids of the discipline's pairs (at the level when one is given) |
| Filters.PrefixedConcat | sutekh/sutekh/core/Filters.py:104-108 | extending the id list with one discipline's ids is associative with the rest |
| Filters.PrefixedEmpty | sutekh/sutekh/core/Filters.py:104-108 | an empty id list extends nothing |
| Filters.NewMultiDisciplineFilter | sutekh/sutekh/core/Filters.py:101-110 | the constructor, extending the list one discipline at a time, gives the multi-discipline filter |
| Filters.NewMultiDisciplineLevelFilter | sutekh/sutekh/core/Filters.py:146-163 | the constructor over (discipline, level) pairs, extending the id list one request at a time, gives the multi-discipline-level filter; an empty list fails at its first element |
| Filters.MultiLevelOk | sutekh/sutekh/core/Filters.py:153-157 | a list of (discipline, level) requests gives ids exactly when every request has a known lower-cased level and a known discipline |
| Filters.MultiLevelIdsMembers | sutekh/sutekh/core/Filters.py:153-157 | the ids of a successful request list are exactly the ids its requests contribute |
| Filters.MultiDisciplineLevelMatches | sutekh/sutekh/core/Filters.py:146-160 | the filter is accepted exactly when the list is not empty and every request is well formed, and it selects the cards holding at least one requested discipline at its lower-cased level |
| Filters.PairIdsMatch | sutekh/sutekh/core/Filters.py:84-129 | a filter on the discipline's pair ids selects exactly the cards holding a pair of that discipline (at that level) |
| Filters.DisciplineMatches | sutekh/sutekh/core/Filters.py:80-89 | a discipline filter is accepted exactly for a known discipline and selects the cards that hold it at any level |
| Filters.DisciplineLevelMatches | sutekh/sutekh/core/Filters.py:122-133 | an unknown level fails before the discipline is looked up; otherwise an unknown discipline fails, and a known one selects the cards holding it at the lower-cased level |
| Filters.MultiDisciplineIdsMembers | sutekh/sutekh/core/Filters.py:101-108 | the ids of a successful multi-discipline request are exactly those of its disciplines |
| Filters.MultiDisciplineMatches | sutekh/sutekh/core/Filters.py:101-110 | a multi-discipline filter is accepted exactly when every discipline is known, and selects the cards holding at least one of them |
| Filters.PairIdUnique | sutekh/sutekh/core/Filters.py:128-129 | a stored pair's id is among a discipline's ids exactly when the pair is of that discipline |
| Filters.MultiDisciplineOk | sutekh/sutekh/core/Filters.py:101-108 | the multi-discipline id list is built exactly when every name is known |
| Filters.OrBoxConcat | sutekh/sutekh/core/Filters.py:654 | an OR box over two lists is the disjunction of the two |
| Filters.ChosenMatch | sutekh/sutekh/core/Filters.py:621-654 | the OR of the chosen boxes matches exactly when a requested function's box does |
| Filters.CardFunctionMatches | sutekh/sutekh/core/Filters.py:621-654 | a card-function filter selects exactly the cards that one of the requested functions' boxes selects (also lines 673-675) |
| Filters.ChosenKnownOnly | sutekh/sutekh/core/Filters.py:621-654 | the chosen boxes depend only on which known names are requested |
| Filters.CardFunctionKnownOnly | sutekh/sutekh/core/Filters.py:621-654 | unknown names, repeats and order add nothing to a card-function filter |
| Filters.FunctionValues | sutekh/sutekh/core/Filters.py:659-665 | `get_values` is sorted and a permutation of the 8 function names |
| Filters.BanTextPlain | sutekh/sutekh/core/Filters.py:689-690 | the ban text holds no wildcard and no brace |
| Filters.IllegalFilterMatches | sutekh/sutekh/core/Filters.py:678-691 | the illegal-card filter keeps exactly the cards without the banned keyword, or, when that keyword is not in the catalogue, the cards whose search text does not mention the ban |
| Filters.ReplacePunctuation | sutekh/sutekh/core/Filters.py:704-705 | the loop over `string.punctuation` turns each punctuation character into `_` in turn |
| Filters.BestGuess | sutekh/sutekh/core/Filters.py:694-720 | the filter built is the name filter on the lower-cased best-guess pattern AND-ed with the illegal-card filter |
| Filters.DevowelChars | sutekh/sutekh/core/Filters.py:709-713 | after the punctuation pass, replacing the vowels leaves no vowel and no punctuation but `_` |
| Filters.BestGuessShape | sutekh/sutekh/core/Filters.py:698-718 | the best-guess pattern starts and ends with `%`, and holds no whitespace, no vowel and no punctuation but `_` and `%` |
| CardSetGraph.WalkAdd | sutekh/sutekh/gui/GuiCardSetFunctions.py:17-18 | walking up a + b parent links is walking a links and then b more |
| CardSetGraph.WalkEnded | sutekh/sutekh/gui/GuiCardSetFunctions.py:17-18 | once the chain of parents has ended it stays ended |
| CardSetGraph.WalkStep | sutekh/sutekh/gui/GuiCardSetFunctions.py:17-18 | a step beyond k exists only from a known set reached at step k |
| CardSetGraph.Pigeonhole | sutekh/sutekh/gui/GuiCardSetFunctions.py:17-18 | a walk longer than the number of sets meets some set twice |
| CardSetGraph.Periodic | sutekh/sutekh/gui/GuiCardSetFunctions.py:17-18 | a walk that meets the same set at steps i < j repeats with period j - i from step i on |
| CardSetGraph.RepeatEndless | sutekh/sutekh/gui/GuiCardSetFunctions.py:17-18 | a walk that meets a set twice never ends |
| CardSetGraph.LongWalkRepeats | sutekh/sutekh/gui/GuiCardSetFunctions.py:17-18 | a walk lasting one step more than there are sets meets some set twice |
| CardSetGraph.DetectLoopEndless | sutekh/sutekh/gui/GuiCardSetFunctions.py:17-28 | `detect_loop` holds exactly when the chain of parents from the set never ends |
| CardSetGraph.WalkAvoiding | sutekh/sutekh/gui/GuiCardSetFunctions.py:25-30 | two parent relations that differ only at x give the same walk until it reaches x |
| CardSetGraph.Relink | sutekh/sutekh/gui/GuiCardSetFunctions.py:25-30 | changing only x's parent can give a loop-free set a loop only if its walk reaches x and x's new chain never ends |
| CardSetGraph.ReparentKeepsAcyclic | sutekh/sutekh/gui/GuiCardSetFunctions.py:23-36 | a new parent that puts no loop above the set keeps an acyclic relation acyclic |
| CardSetGraph.CutKeepsLoopFree | sutekh/sutekh/gui/GuiCardSetFunctions.py:204 | making a set a top-level set never gives a loop-free set a loop |
| CardSetGraph.CutOnWalk | sutekh/sutekh/gui/GuiCardSetFunctions.py:204 | making a set on the walk from s top-level ends that walk |
| CardSetGraph.BreakPoint | sutekh/sutekh/gui/GuiCardSetFunctions.py:204 | `break_loop` breaks at the set reached after as many steps up as there are sets |
| CardSetGraph.BreakLoop | sutekh/sutekh/gui/GuiCardSetFunctions.py:204 | `break_loop` clears exactly the parent of the break point |
| CardSetGraph.BreakPointOnLoop | sutekh/sutekh/gui/GuiCardSetFunctions.py:204 | the break point lies on the loop: walking up from it returns to it |
| CardSetGraph.BreakLoopFrees | sutekh/sutekh/gui/GuiCardSetFunctions.py:202-204 | breaking the loop above s frees s, and every set without a loop still has none |
| CardSetGraph.DepthFuel | sutekh/sutekh/gui/GuiCardSetFunctions.py:17-18 | a loop-free set's depth does not depend on the step bound once it is large enough |
| CardSetGraph.DepthUp | sutekh/sutekh/gui/GuiCardSetFunctions.py:17-18 | the parent of a loop-free set is loop-free and one level shallower |
| CardSets.CardsIn | sutekh/sutekh/tests/test_CardSets.py:76-80 | the cards of a set: one element per membership row of that set |
| CardSets.RowsOf | sutekh/sutekh/tests/test_CardSets.py:81-94 | the number of membership rows of a card over every set |
| CardSets.DropCard | sutekh/sutekh/tests/test_CardSets.py:128-131 | the rows left when a card is removed from a set |
| CardSets.DropSet | sutekh/sutekh/tests/test_CardSets.py:132-145 | the rows left when a set is deleted |
| CardSets.AddRow | sutekh/sutekh/tests/test_CardSets.py:76-94 | adding a row adds one copy of its card to its set, nothing to the others, and one row for that card |
| CardSets.DropCardCards | sutekh/sutekh/tests/test_CardSets.py:128-131 | removing a card from a set takes every copy of it out of that set and leaves the other sets as they were |
| CardSets.DropCardRows | sutekh/sutekh/tests/test_CardSets.py:128-131 | removing a card from a set loses exactly the rows of that card in that set |
| CardSets.DropSetCounts | sutekh/sutekh/tests/test_CardSets.py:132-145 | deleting a set empties it, leaves the other sets as they were and loses exactly its rows |
| CardSets.CardSetDb.Named | sutekh/sutekh/tests/test_CardSets.py:67-72 | the name lookup finds the set with that name, or nothing |
| CardSets.CardSetDb.Children | sutekh/sutekh/gui/GuiCardSetFunctions.py:52 | `find_children`: the sets whose parent is the given set (also line 106) |
| CardSets.CardSetDb.constructor | sutekh/sutekh/tests/test_CardSets.py:55-65 | an empty database |
| CardSets.CardSetDb.Create | sutekh/sutekh/tests/test_CardSets.py:55-72 | creating a set with a fresh name adds it with that name and parent and no cards, and the name lookup then finds it; a name in use is refused |
| CardSets.CardSetDb.AddCard | sutekh/sutekh/tests/test_CardSets.py:76-80 | `addPhysicalCard` adds one row, one more copy of the card in the set |
| CardSets.CardSetDb.RemoveCard | sutekh/sutekh/tests/test_CardSets.py:128-131 | `removePhysicalCard` removes every row of the card in the set |
| CardSets.CardSetDb.Delete | sutekh/sutekh/tests/test_CardSets.py:132-145 | deleting a set removes it, so its name no longer resolves, and removes all its membership rows |
| CardSets.CardSetDb.SetParent | sutekh/sutekh/gui/GuiCardSetFunctions.py:26-38 | assigning the parent column of one set and nothing else |
| CardSetMembership.SetsWith | sutekh/sutekh/tests/test_CardSets.py:81-94 | the sets holding a card, one element per membership row |
| CardSetMembership.SetsWithCounts | sutekh/sutekh/tests/test_CardSets.py:81-94 | each set holds the card as many times as it appears among the sets of the card's rows |
| CardSetMembership.NoRepeatsSize | sutekh/sutekh/tests/test_CardSets.py:81-94 | a multiset without repeats has as many elements as distinct elements |
| CardSetMembership.RowsAreSets | sutekh/sutekh/tests/test_CardSets.py:81-94 | when no set holds a card twice, its number of membership rows is the number of sets containing it |
| CardSetMembership.AddStep | sutekh/sutekh/tests/test_CardSets.py:76-78 | appending one row to a set extends it by its card |
| CardSetMembership.AddEach | sutekh/sutekh/tests/test_CardSets.py:76-80 | adding each card of a list once to a set: the set gains exactly those cards (repeats included), other sets are unchanged, each card gains one row per copy (also lines 194-208) |
| CardSetMembership.EmptySet | sutekh/sutekh/tests/test_CardSets.py:128-131 | removing one by one every card the set held leaves it empty and every other set as it was |
| CardSetMembership.RemoveStep | sutekh/sutekh/tests/test_CardSets.py:128-131 | removing one card from a set, seen from every set |
| CardSetHolder.Added | sutekh/sutekh/tests/core/test_CardSetHolder.py:36-38 | `add(n, name, expansion)` stages n more copies of the entry |
| CardSetHolder.Removed | sutekh/sutekh/tests/core/test_CardSetHolder.py:60-64 | `remove` of an entry never added, or of more copies than staged, fails; otherwise n copies go |
| CardSetHolder.AddThenRemove | sutekh/sutekh/tests/core/test_CardSetHolder.py:60-64 | removing what was just added gives back the staged contents |
| CardSetHolder.Resolve | sutekh/sutekh/tests/core/test_CardSetHolder.py:84-118 | an entry stands for a physical card when its name is known; an unknown expansion gives no expansion |
| CardSetHolder.ResolveAllPick | sutekh/sutekh/tests/core/test_CardSetHolder.py:84-111 | the cards committed do not depend on which entry is taken first |
| CardSetHolder.ResolveAllSize | sutekh/sutekh/tests/core/test_CardSetHolder.py:27-44 | a committed holder has exactly as many cards as staged copies when every name is known, and fewer otherwise (also lines 84-99) |
| CardSetHolder.CardSetHolder.constructor | sutekh/sutekh/tests/core/test_CardSetHolder.py:34 | a new holder has no name, no parent, no entries and no warnings |
| CardSetHolder.CardSetHolder.Add | sutekh/sutekh/tests/core/test_CardSetHolder.py:36-38 | `add` stages n more copies and changes nothing else |
| CardSetHolder.CardSetHolder.Remove | sutekh/sutekh/tests/core/test_CardSetHolder.py:60-64 | `remove` fails and changes nothing when the entry is missing or has fewer than n copies, otherwise removes n copies |
| CardSetHolder.CardSetHolder.GetParentPcs | sutekh/sutekh/tests/core/test_CardSetHolder.py:59 | `get_parent_pcs` gives the set named as parent, or None and one more warning when no set has that name (also lines 68-69, 125-129) |
| CardSetHolder.CardSetHolder.ClearWarnings | sutekh/sutekh/tests/core/test_CardSetHolder.py:130-131 | `clear_warnings` empties the warnings and changes nothing else |
| CardSetHolder.CardSetHolder.CreatePcs | sutekh/sutekh/tests/core/test_CardSetHolder.py:34-44 | `create_pcs` without a name fails and changes nothing; otherwise it creates the set under the resolved parent (warning when it is missing), holding one card per staged copy whose name is known (also lines 65-70, 132-133) |
| CardSetHolder.AddResolved | sutekh/sutekh/tests/core/test_CardSetHolder.py:42-44 | the card loop of `create_pcs` adds one row per staged copy whose name is known (also lines 96-99) |
| CardSetHolder.ResolveStep | sutekh/sutekh/tests/core/test_CardSetHolder.py:42-44 | one turn of the card loop keeps the cards made plus those still to make equal to the total |
| CardSetHolder.AddRowEverywhere | sutekh/sutekh/tests/core/test_CardSetHolder.py:42-44 | adding a row for the new set changes only that set's cards |
| CardSetHolder.NoRowsOfNewSet | sutekh/sutekh/tests/core/test_CardSetHolder.py:42 | a set not yet in the tables has no membership rows |
| CardSetFunctions.ReparentOne | sutekh/sutekh/gui/GuiCardSetFunctions.py:23-40 | one reparenting attempt: the new link is kept unless it puts the set on or below a loop, and None is always kept |
| CardSetFunctions.ReparentOneAcyclic | sutekh/sutekh/gui/GuiCardSetFunctions.py:23-36 | a reparenting attempt never puts a set of an acyclic relation on or below a loop |
| CardSetFunctions.ReparentCardSet | sutekh/sutekh/gui/GuiCardSetFunctions.py:20-41 | a new parent of None is always taken and gives True; a real parent that makes a loop is set back to the old one and gives False; otherwise it is kept and gives True |
| CardSetFunctions.ReparentAll | sutekh/sutekh/gui/GuiCardSetFunctions.py:47-48 | reparenting each child in turn |
| CardSetFunctions.ReparentAllEffect | sutekh/sutekh/gui/GuiCardSetFunctions.py:47-48 | afterwards each child has moved under the set or kept its parent, every other set keeps its parent and an acyclic relation stays acyclic |
| CardSetFunctions.ReparentAllChildren | sutekh/sutekh/gui/GuiCardSetFunctions.py:43-48 | nothing for an empty child list; otherwise the named set is looked up (a missing name raises) and each child is reparented under it |
| CardSetFunctions.DeletePromptFor | sutekh/sutekh/gui/GuiCardSetFunctions.py:53-62 | the prompt depends on whether the set has cards and children, none for an empty set without children |
| CardSetFunctions.CheckOkToDelete | sutekh/sutekh/gui/GuiCardSetFunctions.py:50-63 | true without asking for an empty set without children, otherwise the user's answer |
| CardSetFunctions.FindChildren | sutekh/sutekh/gui/GuiCardSetFunctions.py:52 | the list of sets whose parent is the given set |
| CardSetFunctions.GetImportName | sutekh/sutekh/gui/GuiCardSetFunctions.py:83-113 | an import asks for a new name when the holder has none or it is taken; a rename takes the new name, cancelling clears the name, replacing deletes the old set and returns its children; otherwise the holder is unchanged and no children are returned |
| CardSetFunctions.ImportCs | sutekh/sutekh/gui/GuiCardSetFunctions.py:146-190 | a failed parse or an empty holder aborts with nothing changed; an import left without a name stops; a cancelled card lookup (LookupFailed) ends it silently before the set is created; otherwise the set is created and the replaced set's children are reparented under it |
| CardSetFunctions.CreateAndReparent | sutekh/sutekh/gui/GuiCardSetFunctions.py:181-183 | the set is created from the named holder and the children of a replaced set are reparented under it |
| CardSetFunctions.BreakExistingLoops | sutekh/sutekh/gui/GuiCardSetFunctions.py:199-210 | every set in table order that `detect_loop` finds on or below a loop has its loop broken; afterwards no set has a loop, only parent links were cleared, and a loop-free relation is left alone |
| CardSetFunctions.BreakNext | sutekh/sutekh/gui/GuiCardSetFunctions.py:202-204 | the relation after one step of loop breaking at a set |
| CardSetFunctions.BreakStep | sutekh/sutekh/gui/GuiCardSetFunctions.py:201-204 | each step of the loop breaking keeps the sets visited so far loop-free |
| CardSetFunctions.AllLoopFree | sutekh/sutekh/gui/GuiCardSetFunctions.py:201-210 | once every set was visited, no set is on or below a loop |
| DatabaseUpgrade.ParentsOf | sutekh/sutekh/core/generic/BaseDatabaseUpgrade.py:59-63 | the parent relation of a list of sets, by id |
| DatabaseUpgrade.ParentsOfLink | sutekh/sutekh/core/generic/BaseDatabaseUpgrade.py:59-63 | with distinct ids each set's own parent link is the relation's link for its id |
| DatabaseUpgrade.Round | sutekh/sutekh/core/generic/BaseDatabaseUpgrade.py:56-76 | one pass over the sets still to copy: the sets copied in it, in order, and those carried to the next pass |
| DatabaseUpgrade.RoundSplits | sutekh/sutekh/core/generic/BaseDatabaseUpgrade.py:56-76 | each set of a pass is either copied or carried over |
| DatabaseUpgrade.RoundReady | sutekh/sutekh/core/generic/BaseDatabaseUpgrade.py:59-64 | a set is copied only when its parent is None or already copied (earlier in the same pass included) |
| DatabaseUpgrade.RoundProgress | sutekh/sutekh/core/generic/BaseDatabaseUpgrade.py:56-76 | a pass over sets of which one is ready copies at least one |
| DatabaseUpgrade.RoundStuck | sutekh/sutekh/core/generic/BaseDatabaseUpgrade.py:52-81 | a pass over sets whose parents all lie among uncopied sets copies nothing, so the loop over a parent cycle never ends |
| DatabaseUpgrade.ReadyExists | sutekh/sutekh/core/generic/BaseDatabaseUpgrade.py:59-64 | among consistent sets to copy the shallowest one is ready |
| DatabaseUpgrade.RoundAdvances | sutekh/sutekh/core/generic/BaseDatabaseUpgrade.py:52-81 | a pass over consistent sets copies at least one |
| DatabaseUpgrade.Shallowest | sutekh/sutekh/core/generic/BaseDatabaseUpgrade.py:59-64 | the position of a set of least depth |
| DatabaseUpgrade.RoundConsistent | sutekh/sutekh/core/generic/BaseDatabaseUpgrade.py:77-80 | the sets a pass carries over are consistent again once its copies count as done |
| DatabaseUpgrade.RoundsOrder | sutekh/sutekh/core/generic/BaseDatabaseUpgrade.py:52-81 | the passes copy each set exactly once, each after its parent |
| DatabaseUpgrade.ConcatReady | sutekh/sutekh/core/generic/BaseDatabaseUpgrade.py:52-81 | a parents-first order followed by a parents-first order of later sets is parents-first |
| DatabaseUpgrade.StartConsistent | sutekh/sutekh/core/generic/BaseDatabaseUpgrade.py:46-50 | a well-formed old database is consistent before anything is copied |
| DatabaseUpgrade.ParentsFirst | sutekh/sutekh/core/generic/BaseDatabaseUpgrade.py:52-81 | every old set appears exactly once in the copy order, after its parent |
| DatabaseUpgrade.SameSet | sutekh/sutekh/core/generic/BaseDatabaseUpgrade.py:66 | ids and names each pick out one old set |
| DatabaseUpgrade.ListedOnce | sutekh/sutekh/core/generic/BaseDatabaseUpgrade.py:52-81 | no old set is listed twice in the copy order |
| DatabaseUpgrade.CopyParent | sutekh/sutekh/core/generic/BaseDatabaseUpgrade.py:59-64 | a copy's parent is the copy of the original's parent |
| DatabaseUpgrade.OwnMap | sutekh/sutekh/core/generic/BaseDatabaseUpgrade.py:70-71 | each old set's cards, by id |
| DatabaseUpgrade.OwnMapAt | sutekh/sutekh/core/generic/BaseDatabaseUpgrade.py:70-71 | with distinct ids an old set's entry holds its own cards |
| DatabaseUpgrade.OwnsAll | sutekh/sutekh/core/generic/BaseDatabaseUpgrade.py:70-71 | with distinct ids every old set's entry holds its own cards |
| DatabaseUpgrade.MirrorStep | sutekh/sutekh/core/generic/BaseDatabaseUpgrade.py:65-74 | copying one more ready set extends the mirror of copied sets |
| DatabaseUpgrade.IdsStep | sutekh/sutekh/core/generic/BaseDatabaseUpgrade.py:74 | the ids of one more copied set |
| DatabaseUpgrade.EveryCopyStep | sutekh/sutekh/core/generic/BaseDatabaseUpgrade.py:65-74 | every copy, old and new, is mirrored after one more set is copied |
| DatabaseUpgrade.CopiedSnoc | sutekh/sutekh/core/generic/BaseDatabaseUpgrade.py:65-74 | copies of a list and of one more set after it are copies of the longer list |
| DatabaseUpgrade.KeptAll | sutekh/sutekh/core/generic/BaseDatabaseUpgrade.py:65-74 | earlier copies are untouched by copying one more set |
| DatabaseUpgrade.NewCopied | sutekh/sutekh/core/generic/BaseDatabaseUpgrade.py:65-74 | the set copied last is mirrored under the next id, with its name, cards and copied parent |
| DatabaseUpgrade.CopiedKept | sutekh/sutekh/core/generic/BaseDatabaseUpgrade.py:65-74 | an earlier copy is untouched by a copy under a new id |
| DatabaseUpgrade.CopySet | sutekh/sutekh/core/generic/BaseDatabaseUpgrade.py:66-72 | a new set holding the old set's cards under the given parent |
| DatabaseUpgrade.IdsConcat | sutekh/sutekh/core/generic/BaseDatabaseUpgrade.py:74 | the ids of two lists of sets together |
| DatabaseUpgrade.NotYetCopied | sutekh/sutekh/core/generic/BaseDatabaseUpgrade.py:65-66 | a set still to copy shares neither id nor name with a copied one |
| DatabaseUpgrade.NameFree | sutekh/sutekh/core/generic/BaseDatabaseUpgrade.py:66 | a name no copied set has is free in the mirrored tables |
| DatabaseUpgrade.PassStart | sutekh/sutekh/core/generic/BaseDatabaseUpgrade.py:56 | a pass starts with nothing copied and nothing carried |
| DatabaseUpgrade.PassEnd | sutekh/sutekh/core/generic/BaseDatabaseUpgrade.py:77-80 | at the end of a pass its copied and carried sets are the round's |
| DatabaseUpgrade.PassCopies | sutekh/sutekh/core/generic/BaseDatabaseUpgrade.py:59-74 | a ready set is copied by the pass |
| DatabaseUpgrade.PassKeeps | sutekh/sutekh/core/generic/BaseDatabaseUpgrade.py:75-76 | a set that is not ready is carried to the next pass |
| DatabaseUpgrade.CanCopy | sutekh/sutekh/core/generic/BaseDatabaseUpgrade.py:65-66 | a set still to copy is not copied yet and its name is free |
| DatabaseUpgrade.ReadyStep | sutekh/sutekh/core/generic/BaseDatabaseUpgrade.py:65-74 | the tables after copying a ready set under the next id mirror one more set |
| DatabaseUpgrade.StepCopies | sutekh/sutekh/core/generic/BaseDatabaseUpgrade.py:65-74 | the bookkeeping of a pass when the next set is copied |
| DatabaseUpgrade.StepKeeps | sutekh/sutekh/core/generic/BaseDatabaseUpgrade.py:75-76 | the bookkeeping of a pass when the next set is carried over |
| DatabaseUpgrade.TallyCopies | sutekh/sutekh/core/generic/BaseDatabaseUpgrade.py:74 | copying the next set keeps the tally |
| DatabaseUpgrade.TallyKeeps | sutekh/sutekh/core/generic/BaseDatabaseUpgrade.py:76 | carrying the next set keeps the tally |
| DatabaseUpgrade.TallyEnd | sutekh/sutekh/core/generic/BaseDatabaseUpgrade.py:77 | at the end of a pass nothing is left to look at |
| DatabaseUpgrade.StartPending | sutekh/sutekh/core/generic/BaseDatabaseUpgrade.py:46-50 | before the first pass every set is pending and the rounds to come are the whole copy order |
| DatabaseUpgrade.RoundsNext | sutekh/sutekh/core/generic/BaseDatabaseUpgrade.py:77-80 | after one pass the rounds go on from the sets it carried over, or are done |
| DatabaseUpgrade.NextPending | sutekh/sutekh/core/generic/BaseDatabaseUpgrade.py:79-80 | a pass that carries sets over leaves them pending |
| DatabaseUpgrade.Associative | sutekh/sutekh/core/generic/BaseDatabaseUpgrade.py:52-81 | joining lists of sets is associative |
| DatabaseUpgrade.NextDone | sutekh/sutekh/core/generic/BaseDatabaseUpgrade.py:77-78 | a pass that carries nothing over finishes the copy order |
| DatabaseUpgrade.RoundsUnfold | sutekh/sutekh/core/generic/BaseDatabaseUpgrade.py:52-81 | the rounds are one pass followed by the rounds over what it carried |
| DatabaseUpgrade.CopyPhysicalCardSetLoop | sutekh/sutekh/core/generic/BaseDatabaseUpgrade.py:41-81 | the new tables hold one copy of every old set, in parents-first order, each with its name, its cards and the copy of its parent |
| DatabaseUpgrade.Staged | sutekh/sutekh/core/generic/BaseDatabaseUpgrade.py:180-184 | the entries staged for a list of cards, one copy per card |
| DatabaseUpgrade.StagedCounts | sutekh/sutekh/core/generic/BaseDatabaseUpgrade.py:180-184 | each card is staged as often as the set holds it, and nothing else |
| DatabaseUpgrade.AddedOne | sutekh/sutekh/core/generic/BaseDatabaseUpgrade.py:182-184 | adding one copy of an entry is a multiset union |
| DatabaseUpgrade.StagedResolves | sutekh/sutekh/core/generic/BaseDatabaseUpgrade.py:172-184 | a staged set committed through a lookup that knows every card and expansion gives back exactly the set's cards |
| DatabaseUpgrade.ResolveSnoc | sutekh/sutekh/core/generic/BaseDatabaseUpgrade.py:233 | committing one more entry adds what it resolves to |
| DatabaseUpgrade.NameOf | sutekh/sutekh/core/generic/BaseDatabaseUpgrade.py:178-179 | the name of a listed set |
| DatabaseUpgrade.MakeCardSetHolder | sutekh/sutekh/core/generic/BaseDatabaseUpgrade.py:168-186 | a new holder with the set's name and its parent's name when it has a parent, and one `add(1, canonical name, expansion name or None)` per card |
| DatabaseUpgrade.AddHolder | sutekh/sutekh/core/generic/BaseDatabaseUpgrade.py:216-219 | one more holder, made from the set, at the end of the list |
| DatabaseUpgrade.HolderRound | sutekh/sutekh/core/generic/BaseDatabaseUpgrade.py:214-225 | one pass of the holder loop makes a holder for each ready set, like a pass of the copy loop |
| DatabaseUpgrade.MemoryCopies | sutekh/sutekh/core/generic/BaseDatabaseUpgrade.py:209-225 | the holder loop makes a holder for every old set, in the same parents-first order |
| DatabaseUpgrade.CommitMap | sutekh/sutekh/core/generic/BaseDatabaseUpgrade.py:231-233 | what committing each old set's holder stores, by id |
| DatabaseUpgrade.CommitMapAt | sutekh/sutekh/core/generic/BaseDatabaseUpgrade.py:231-233 | with distinct ids an old set's entry holds what its holder commits |
| DatabaseUpgrade.CommitsAll | sutekh/sutekh/core/generic/BaseDatabaseUpgrade.py:231-233 | every old set's entry holds what its holder commits |
| DatabaseUpgrade.CommitFaithful | sutekh/sutekh/core/generic/BaseDatabaseUpgrade.py:231-233 | through a faithful lookup every holder commits exactly its set's cards |
| DatabaseUpgrade.ParentNamed | sutekh/sutekh/core/generic/BaseDatabaseUpgrade.py:179 | in mirrored tables the copy of a copied set carries that set's name (also line 233) |
| DatabaseUpgrade.CopiedNamed | sutekh/sutekh/core/generic/BaseDatabaseUpgrade.py:173 | a copied set is copied under its own name (also line 233) |
| DatabaseUpgrade.OrderSplit | sutekh/sutekh/core/generic/BaseDatabaseUpgrade.py:231-233 | the copy order splits at each position, and the set there is ready once those before are created |
| DatabaseUpgrade.NextToCreate | sutekh/sutekh/core/generic/BaseDatabaseUpgrade.py:233 | a set whose parent is created has a free name and its parent is found under the parent's name |
| DatabaseUpgrade.PrepareAt | sutekh/sutekh/core/generic/BaseDatabaseUpgrade.py:231-233 | once the sets before a position are created, the set at it can be created next |
| DatabaseUpgrade.NamedStep | sutekh/sutekh/core/generic/BaseDatabaseUpgrade.py:231-233 | one more named set keeps every set named |
| DatabaseUpgrade.CreateAll | sutekh/sutekh/core/generic/BaseDatabaseUpgrade.py:231-235 | the `create_pcs` loop raises at the first holder without a name, having created the sets before it; with every set named it creates them all, each under the copy of its parent |
| DatabaseUpgrade.OrderNamed | sutekh/sutekh/core/generic/BaseDatabaseUpgrade.py:209-225 | the copy order lists a set without a name exactly when the old database has one |
| DatabaseUpgrade.CopyToNewAbstractCardDb | sutekh/sutekh/core/generic/BaseDatabaseUpgrade.py:189-237 | holders made parents first, then `create_pcs` for each in the same order: success with no messages and tables mirroring every old set with what its cards resolve to, or an exception at an unnamed set |
| UpgradeResults.AllOkEach | sutekh/sutekh/core/generic/BaseDatabaseUpgrade.py:104-117 | the fold succeeds exactly when each copy function returned true without raising |
| UpgradeResults.FoldConcat | sutekh/sutekh/core/generic/BaseDatabaseUpgrade.py:104-117 | folding two lists of copy functions one after the other is folding their concatenation |
| UpgradeResults.MessagesKept | sutekh/sutekh/core/generic/BaseDatabaseUpgrade.py:117 | each copy function's messages appear in the folded messages |
| UpgradeResults.FoldCopies | sutekh/sutekh/core/generic/BaseDatabaseUpgrade.py:99-121 | every copy function runs; the flag is the conjunction of their flags and the messages are theirs, in order; a raising function counts as false with one message |
| UpgradeResults.CheckCanRead | sutekh/sutekh/core/DatabaseUpgrade.py:141-204 | the version check answers True exactly when every table is at a readable version, and otherwise raises UnknownVersion naming the first table that is not; it never answers False |
| UpgradeResults.EveryMessageKept | sutekh/sutekh/core/generic/BaseDatabaseUpgrade.py:117 | every copy function's messages appear in the folded messages |
| UpgradeResults.ReadOutcome | sutekh/sutekh/core/generic/BaseDatabaseUpgrade.py:86-121 | the corrected read, with the version check of DatabaseUpgrade.py:141-204 in scope: an unknown version raises UnknownVersion naming the table, otherwise the flag holds exactly when every copy function returned true and every function's messages are reported |
| UpgradeResults.ReadOldDatabase | sutekh/sutekh/core/generic/BaseDatabaseUpgrade.py:86-121 | the corrected read, with the version check in scope: the check, then the copy loop, giving the folded report of every copy function |
| UpgradeResults.FirstFailure | sutekh/sutekh/core/generic/BaseDatabaseUpgrade.py:146-156 | the position of the first copy function that raises |
| UpgradeResults.Names | sutekh/sutekh/core/generic/BaseDatabaseUpgrade.py:146-156 | the names of a list of copy functions |
| UpgradeResults.CopyDatabase | sutekh/sutekh/core/generic/BaseDatabaseUpgrade.py:126-165 | copy functions run in order until one raises and none after it; success exactly when none raised, with no messages, otherwise one message naming the one that raised |
| UpgradeResults.CreateMemoryCopy | sutekh/sutekh/core/generic/BaseDatabaseUpgrade.py:240-253 | the memory copy passes on the read's outcome, its pair or its exception, once the tables are created, and reports failure otherwise |
| UpgradeResults.CreateFinalCopy | sutekh/sutekh/core/generic/BaseDatabaseUpgrade.py:256-261 | the final copy reports the copy's pair once the tables are created, and failure otherwise |
| UpgradeResults.AttemptUpgrade | sutekh/sutekh/core/generic/BaseDatabaseUpgrade.py:264-290 | the final copy runs only after a successful memory copy, the upgrade succeeds only when both do, and an exception from the memory copy leaves it |
| UpgradeResults.UpgradeNeedsAll | sutekh/sutekh/core/generic/BaseDatabaseUpgrade.py:264-290 | success only when the old database is readable, both sets of tables are created, every old table is copied and the final copy succeeds |
| UpgradeResults.ReadOutcomeAsWritten | sutekh/sutekh/core/generic/BaseDatabaseUpgrade.py:88-92 | as written, the read raises NameError at the call of `check_can_read_old_database`, which the module neither defines nor imports, and the `except UnknownVersion` does not catch it |
| UpgradeResults.AsWrittenNeverUpgrades | sutekh/sutekh/core/generic/BaseDatabaseUpgrade.py:264-290 | as written, no upgrade succeeds: with the memory tables created the attempt ends in that NameError, and otherwise the memory copy fails and the final copy is not attempted |
| UpgradeResults.CheckedUpgrade | sutekh/sutekh/core/generic/BaseDatabaseUpgrade.py:264-290 | with the version check in scope, the upgrade succeeds exactly when every table is readable, both sets of tables are created, every copy returns true and the final copy succeeds; an unreadable table version raises once the memory tables exist |
| BaseGroupings.Members | sutekh/sutekh/core/generic/BaseGroupings.py:24-30 | the items listed under a key are the items having that key, in input order |
| BaseGroupings.Flat | sutekh/sutekh/core/generic/BaseGroupings.py:24-30 | every key of every item, in order |
| BaseGroupings.Dedup | sutekh/sutekh/core/generic/BaseGroupings.py:25 | each key once, as `set(ks)` holds it, in first-appearance order |
| BaseGroupings.DedupDistinct | sutekh/sutekh/core/generic/BaseGroupings.py:25 | the keys of an item are visited without repeats |
| BaseGroupings.Somes | sutekh/sutekh/core/generic/BaseGroupings.py:27-30 | the string keys as dictionary keys, none of them the missing key |
| BaseGroupings.Grouped | sutekh/sutekh/core/generic/BaseGroupings.py:22-36 | what iterating a grouping yields: each key with its items |
| BaseGroupings.MembersSnoc | sutekh/sutekh/core/generic/BaseGroupings.py:29-30 | a key's group grows by the last item exactly when that item has the key |
| BaseGroupings.DedupSnoc | sutekh/sutekh/core/generic/BaseGroupings.py:25 | one more key is added to the set when it is new |
| BaseGroupings.AddToKey | sutekh/sutekh/core/generic/BaseGroupings.py:30 | `setdefault(key, []).append(item)` appends the item to that key's list and leaves every other list alone |
| BaseGroupings.GetStepNew | sutekh/sutekh/core/generic/BaseGroupings.py:29-30 | visiting a new key of an item adds the item to that key's group |
| BaseGroupings.GetStepSeen | sutekh/sutekh/core/generic/BaseGroupings.py:29-30 | a key visited before is not visited again |
| BaseGroupings.VisitKey | sutekh/sutekh/core/generic/BaseGroupings.py:29-30 | one step of the loop over `set(ks)` keeps every group equal to the items so far having that key |
| BaseGroupings.AddKeys | sutekh/sutekh/core/generic/BaseGroupings.py:29-30 | the item is added once under each distinct key it has |
| BaseGroupings.AddItem | sutekh/sutekh/core/generic/BaseGroupings.py:24-30 | one item is added under each of its distinct keys, or under the missing key when it has none |
| BaseGroupings.KeylessSnoc | sutekh/sutekh/core/generic/BaseGroupings.py:26-27 | the missing key has items exactly when some item has no key |
| BaseGroupings.MembersSnocAll | sutekh/sutekh/core/generic/BaseGroupings.py:24-30 | every group after one more item |
| BaseGroupings.SomesIn | sutekh/sutekh/core/generic/BaseGroupings.py:27-30 | a dictionary key is a wrapped string key or the missing key, never both |
| BaseGroupings.GroupKeysIn | sutekh/sutekh/core/generic/BaseGroupings.py:24-32 | a key is in the dictionary exactly when some item has it |
| BaseGroupings.YieldGroups | sutekh/sutekh/core/generic/BaseGroupings.py:32-36 | the keys sorted, each yielded with its items |
| BaseGroupings.KeysStored | sutekh/sutekh/core/generic/BaseGroupings.py:32-36 | every key yielded is a key of the filled dictionary |
| BaseGroupings.IterGroup | sutekh/sutekh/core/generic/BaseGroupings.py:22-36 | `IterGrouping.__iter__`: yields each key some item has, once, sorted with the missing key first, with exactly the items having it in input order |
| BaseGroupings.SortedDistinct | sutekh/sutekh/core/generic/BaseGroupings.py:33 | sorting keys without repeats gives strictly increasing keys |
| BaseGroupings.GroupKeysSorted | sutekh/sutekh/core/generic/BaseGroupings.py:32-33 | the keys yielded are strictly increasing |
| BaseGroupings.GroupedSorted | sutekh/sutekh/core/generic/BaseGroupings.py:32-36 | the groups come out in sorted key order, each key once, the missing key first |
| BaseGroupings.MembersNonEmpty | sutekh/sutekh/core/generic/BaseGroupings.py:24-30 | a group is non-empty exactly when some item has its key |
| BaseGroupings.HasKeyGroupKey | sutekh/sutekh/core/generic/BaseGroupings.py:24-30 | an item has a key exactly when that key is yielded |
| BaseGroupings.GroupedKeys | sutekh/sutekh/core/generic/BaseGroupings.py:32-36 | the groups yielded are exactly those of keys some item has |
| BaseGroupings.GroupsNonEmpty | sutekh/sutekh/core/generic/BaseGroupings.py:35-36 | no group yielded is empty |
| BaseGroupings.MembersCount | sutekh/sutekh/core/generic/BaseGroupings.py:24-30 | each item is in the group of each key it has as often as it is in the input, and in no other |
| BaseGroupings.MembersConcat | sutekh/sutekh/core/generic/BaseGroupings.py:24-30 | within a group the items keep their input order |
| BaseGroupings.NullGroupingAll | sutekh/sutekh/core/generic/BaseGroupings.py:85-88 | `NullGrouping` yields one group `All` holding every item, or nothing for no items |
| BaseGroupings.GroupKeysAll | sutekh/sutekh/core/generic/BaseGroupings.py:85-88 | the only key of `NullGrouping` is `All` |
| BaseGroupings.AllKeysFlat | sutekh/sutekh/core/generic/BaseGroupings.py:88 | every item's one key is `All` |
| BaseGroupings.AllMembers | sutekh/sutekh/core/generic/BaseGroupings.py:88 | the `All` group is the whole input |
| Groupings.MultiTypeKeys | sutekh/sutekh/core/Groupings.py:31-35 | one key per card: its type names sorted and joined by ` / ` |
| Groupings.MultiTypeOrderFree | sutekh/sutekh/core/Groupings.py:33-35 | the multi-type key does not depend on the order the card's types are listed in |
| Groupings.ClanKeys | sutekh/sutekh/core/Groupings.py:45-51 | the keys are the card's creeds when it has any, its clans otherwise |
| Groupings.DisciplineNames | sutekh/sutekh/core/Groupings.py:66 | the full name of each discipline, in order |
| Groupings.DisciplineKeys | sutekh/sutekh/core/Groupings.py:60-66 | the keys are the card's virtues when it has any, the full names of its disciplines otherwise |
| Groupings.LevelNames | sutekh/sutekh/core/Groupings.py:81-82 | each discipline as `name (level)`, in order |
| Groupings.DisciplineLevelKeys | sutekh/sutekh/core/Groupings.py:75-82 | the keys are the card's virtues when it has any, each discipline with its level otherwise |
| Groupings.InExpansion | sutekh/sutekh/core/Groupings.py:98-99 | the number of the card's rarities in an expansion |
| Groupings.RarityKeysAll | sutekh/sutekh/core/Groupings.py:90-101 | a key is listed exactly when one of the rarities contributes it |
| Groupings.ExpansionRarityKeys | sutekh/sutekh/core/Groupings.py:87-102 | a key is listed exactly when one of the card's rarities contributes it |
| Groupings.ExpansionRarityListed | sutekh/sutekh/core/Groupings.py:91-95 | a promotional printing is listed under `Promo`, any other under `expansion : rarity` |
| Groupings.PreconOnly | sutekh/sutekh/core/Groupings.py:96-101 | `expansion : Precon Only` is listed for a Precon rarity exactly when the expansion has that one rarity on the card |
| Groupings.CryptLibraryKeys | sutekh/sutekh/core/Groupings.py:111-113 | `Crypt` exactly when the first card type is Vampire or Imbued, `Library` otherwise |
| Groupings.CostKeys | sutekh/sutekh/core/Groupings.py:134-143 | no key exactly for a missing or zero cost, `X <type>` for cost -1, `<cost> <type>` otherwise |
| Groupings.CostKeysSeparate | sutekh/sutekh/core/Groupings.py:137-141 | two cards with a cost and the same cost type share the cost group exactly when their costs are equal |
| Groupings.CostHeadInjective | sutekh/sutekh/core/Groupings.py:138-141 | different costs give different cost texts |
| Groupings.GroupNumberKeys | sutekh/sutekh/core/Groupings.py:152-161 | no key exactly for a missing or zero group, `Any group` for -1, `Group <n>` otherwise |
| Groupings.GroupKeysSeparate | sutekh/sutekh/core/Groupings.py:155-159 | two cards with a group share the group's list exactly when their groups are equal |
| Groupings.PairTexts | sutekh/sutekh/core/Groupings.py:168-189 | each pair as `Groups a, b`, in order |
| Groupings.GroupPairKeys | sutekh/sutekh/core/Groupings.py:175-191 | no key exactly for a missing or zero group, or `Any group` when the largest group is at most 1 |
| Groupings.GroupPairsAdjacent | sutekh/sutekh/core/Groupings.py:178-189 | every pair is two adjacent groups, and a card of a real group is only in pairs containing its group |
| Groupings.GroupPairsComplete | sutekh/sutekh/core/Groupings.py:180-186 | a card of a group from 1 to the largest is in every in-range pair that contains its group |
| Groupings.AnyGroupPairs | sutekh/sutekh/core/Groupings.py:187-189 | `Any group` is in exactly the pairs from (1, 2) up to the largest group |
| CardListTabulator.GroupColumn | sutekh/sutekh/CardListTabulator.py:40 | the group column is the card's group, 0 when it has none |
| CardListTabulator.CapacityColumn | sutekh/sutekh/CardListTabulator.py:41 | the capacity column is the card's capacity, 0 when it has none |
| CardListTabulator.AdvancedColumn | sutekh/sutekh/CardListTabulator.py:45 | 1 exactly for an advanced card, 0 otherwise |
| CardListTabulator.CostColumnsSplit | sutekh/sutekh/CardListTabulator.py:42-44 | only the column of the card's cost type can be non-zero, and the three sum to that column |
| CardListTabulator.FirstMissing | sutekh/sutekh/CardListTabulator.py:78 | the first column name without a property function, if any |
| CardListTabulator.ColumnFuncs | sutekh/sutekh/CardListTabulator.py:78 | the property functions in column order, or a KeyError for the first missing name |
| CardListTabulator.FirstMissingPrefix | sutekh/sutekh/CardListTabulator.py:78 | a name missing among the first columns is the first missing of all |
| CardListTabulator.TabulateRow | sutekh/sutekh/CardListTabulator.py:84-87 | a row holds each column's function applied to the card, in column order |
| CardListTabulator.Tabulate | sutekh/sutekh/CardListTabulator.py:71-91 | an error exactly when some column name has no function; otherwise one row per card in order, with column j holding property j |
| CountCardSetCards.CryptCount | sutekh/sutekh/gui/plugins/CountCardSetCards.py:56-65 | the number of crypt cards in a list, at most its length |
| CountCardSetCards.CardSetCounter.constructor | sutekh/sutekh/gui/plugins/CountCardSetCards.py:32-37 | a new counter has every count 0 |
| CountCardSetCards.CardSetCounter.CountInfo | sutekh/sutekh/gui/plugins/CountCardSetCards.py:40-45 | the three counts under `tot`, `crypt` and `lib`, the total being crypt plus library |
| CountCardSetCards.CardSetCounter.Load | sutekh/sutekh/gui/plugins/CountCardSetCards.py:47-65 | after a load the total is the number of cards, crypt the number of crypt cards and library the rest; the id cache does not change a count |
| CountCardSetCards.CardSetCounter.Adjust | sutekh/sutekh/gui/plugins/CountCardSetCards.py:69-74 | a change moves the total and the card's own half by the same amount and leaves the other half |
| CountCardSetCards.CardSetCounter.AlterCardCount | sutekh/sutekh/gui/plugins/CountCardSetCards.py:67-74 | a count change moves the total and the card's half by the change |
| CountCardSetCards.CardSetCounter.AddNewCard | sutekh/sutekh/gui/plugins/CountCardSetCards.py:76-83 | a new card moves the total and the card's half by its count |
| CountCardSetCards.CryptCountConcat | sutekh/sutekh/gui/plugins/CountCardSetCards.py:56-65 | splitting a list splits its crypt count |
| CountWWListCards.WithExpansion | sutekh/sutekh/gui/plugins/CountWWListCards.py:60-77 | the entries with an expansion on one side, at most all entries |
| CountWWListCards.ExpansionsOf | sutekh/sutekh/gui/plugins/CountWWListCards.py:63-69 | the entries of a card that have an expansion |
| CountWWListCards.WWListCounter.constructor | sutekh/sutekh/gui/plugins/CountWWListCards.py:32-36 | both totals start at 0 and nothing is seen |
| CountWWListCards.WWListCounter.CardCountInfo | sutekh/sutekh/gui/plugins/CountWWListCards.py:38-39 | the card totals under `tot`, `crypt` and `lib` |
| CountWWListCards.WWListCounter.ExpCountInfo | sutekh/sutekh/gui/plugins/CountWWListCards.py:41-42 | the expansion totals under `tot`, `crypt` and `lib` |
| CountWWListCards.WWListCounter.Load | sutekh/sutekh/gui/plugins/CountWWListCards.py:44-79 | after a load the card totals count each distinct card once, on its side, and the expansion totals count each entry that has an expansion |
| CountWWListCards.WWListCounter.CountCard | sutekh/sutekh/gui/plugins/CountWWListCards.py:54-78 | an entry counts its card only the first time the card is seen, and leaves the expansion counts alone |
| CountWWListCards.WWListCounter.CountExpansion | sutekh/sutekh/gui/plugins/CountWWListCards.py:60-79 | an entry counts towards the expansions exactly when it has one, and leaves the card counts alone |
| CountWWListCards.DistinctMembers | sutekh/sutekh/gui/plugins/CountWWListCards.py:53-59 | a card is among a side's distinct cards exactly when one of its entries is on that side |
| CountWWListCards.ListedStep | sutekh/sutekh/gui/plugins/CountWWListCards.py:55-56 | the cards seen after one more entry are those before and its card |
| CountWWListCards.SeenStep | sutekh/sutekh/gui/plugins/CountWWListCards.py:55-56 | the seen dictionary holds exactly the cards listed so far |
| CountWWListCards.FirstSeenDistinct | sutekh/sutekh/gui/plugins/CountWWListCards.py:53-78 | counting first sightings counts the distinct cards of each side |
| CountWWListCards.DistinctIgnoresRepeats | sutekh/sutekh/gui/plugins/CountWWListCards.py:46-48 | two lists listing the same cards on the same sides have the same card totals, however often each is listed |
| CountWWListCards.ExpansionEntries | sutekh/sutekh/gui/plugins/CountWWListCards.py:60-62 | the entries that have an expansion |
| CountWWListCards.ExpansionTotals | sutekh/sutekh/gui/plugins/CountWWListCards.py:72-79 | the two sides' expansion counts add up to the number of entries with an expansion |
| BaseOpeningDraw.CheckCard | sutekh/sutekh/gui/generic/baseplugins/BaseOpeningDraw.py:42-47 | each group whose list holds the card has the card's count added, starting from 0; every other entry is unchanged |
| BaseOpeningDraw.Items | sutekh/sutekh/gui/generic/baseplugins/BaseOpeningDraw.py:53-66 | the entries of a dictionary, each once, in some order |
| BaseOpeningDraw.AboveTrans | sutekh/sutekh/gui/generic/baseplugins/BaseOpeningDraw.py:53-54 | the count-then-name order is transitive |
| BaseOpeningDraw.AboveTotal | sutekh/sutekh/gui/generic/baseplugins/BaseOpeningDraw.py:53-54 | any two entries are ordered one way or the other |
| BaseOpeningDraw.AboveAntisym | sutekh/sutekh/gui/generic/baseplugins/BaseOpeningDraw.py:53-54 | entries ordered both ways are equal |
| BaseOpeningDraw.InsertItem | sutekh/sutekh/gui/generic/baseplugins/BaseOpeningDraw.py:53-67 | inserting into a descending list keeps it descending and adds the entry once |
| BaseOpeningDraw.SortItems | sutekh/sutekh/gui/generic/baseplugins/BaseOpeningDraw.py:53-67 | the sorted list is a permutation of the entries, descending by count and then name |
| BaseOpeningDraw.SortedDownHead | sutekh/sutekh/gui/generic/baseplugins/BaseOpeningDraw.py:66-67 | the head of a descending list is above all of it |
| BaseOpeningDraw.SortedDownHeads | sutekh/sutekh/gui/generic/baseplugins/BaseOpeningDraw.py:66-67 | two descending lists with the same entries start alike |
| BaseOpeningDraw.SortedDownUnique | sutekh/sutekh/gui/generic/baseplugins/BaseOpeningDraw.py:66-67 | two descending lists with the same entries are equal |
| BaseOpeningDraw.ItemsSameEntries | sutekh/sutekh/gui/generic/baseplugins/BaseOpeningDraw.py:53-66 | any two listings of one dictionary have the same entries |
| BaseOpeningDraw.SortedItemsUnique | sutekh/sutekh/gui/generic/baseplugins/BaseOpeningDraw.py:66-67 | every listing of a dictionary sorts to the same list |
| BaseOpeningDraw.DictLines | sutekh/sutekh/gui/generic/baseplugins/BaseOpeningDraw.py:68-69 | one `count × name` line per entry, in sorted order |
| BaseOpeningDraw.FormatDict | sutekh/sutekh/gui/generic/baseplugins/BaseOpeningDraw.py:63-70 | `format_dict` writes the lines of the entries sorted by count and then name, both descending, and the text is the same for every order the dictionary may list its entries in |
| BaseOpeningDraw.Render | sutekh/sutekh/gui/generic/baseplugins/BaseOpeningDraw.py:68-69 | the lines joined one after the other |
| BaseOpeningDraw.LinesSnoc | sutekh/sutekh/gui/generic/baseplugins/BaseOpeningDraw.py:69 | one more entry appends its line |
| BaseOpeningDraw.FormatDictOrderFree | sutekh/sutekh/gui/generic/baseplugins/BaseOpeningDraw.py:63-70 | the text does not depend on the dictionary's order, and has one line per entry |
| BaseOpeningDraw.MembersExactly | sutekh/sutekh/gui/generic/baseplugins/BaseOpeningDraw.py:57-58 | the cards listed under a group are exactly the hand's cards in the group's list |
| BaseOpeningDraw.MembersSorted | sutekh/sutekh/gui/generic/baseplugins/BaseOpeningDraw.py:57-58 | the cards listed under a group keep the sorted order |
| BaseOpeningDraw.FillString | sutekh/sutekh/gui/generic/baseplugins/BaseOpeningDraw.py:50-60 | each group's line, in the order returned, is followed by the hand's cards in that group, sorted by count and then name; the card lines do not depend on the order of the hand's dictionary |
| BaseOpeningDraw.Groups | sutekh/sutekh/gui/generic/baseplugins/BaseOpeningDraw.py:55-59 | the text of the groups in the given order |
| BaseOpeningDraw.Group | sutekh/sutekh/gui/generic/baseplugins/BaseOpeningDraw.py:56-59 | one group's text: its line, then its cards' lines |
| BaseOpeningDraw.RemoveFirst | sutekh/sutekh/gui/generic/baseplugins/BaseOpeningDraw.py:84 | `list.remove` drops the first equal element: one copy fewer, the rest in order |
| BaseOpeningDraw.AddAllCounts | sutekh/sutekh/gui/generic/baseplugins/BaseOpeningDraw.py:85-86 | each name drawn has its count raised by its number of copies drawn; others are unchanged |
| BaseOpeningDraw.DrawXCards | sutekh/sutekh/gui/generic/baseplugins/BaseOpeningDraw.py:81-86 | the cards drawn are removed from the list and counted by name; when the list runs out `choice` raises and every card has been drawn |
| BaseOpeningDraw.DrawOne | sutekh/sutekh/gui/generic/baseplugins/BaseOpeningDraw.py:83-86 | one card drawn is in the list, removed once and counted |
| BaseOpeningDraw.AddAllSnoc | sutekh/sutekh/gui/generic/baseplugins/BaseOpeningDraw.py:85-86 | counting one more card drawn |
| BaseOpeningDraw.DrawnTotal | sutekh/sutekh/gui/generic/baseplugins/BaseOpeningDraw.py:81-86 | the drawn cards are a sub-multiset of the list and the counts rise by the number drawn |
| OpeningDrawSimulator.CountNames | sutekh/sutekh/gui/plugins/OpeningDrawSimulator.py:109-112 | each card name mapped to its number of copies in the list |
| OpeningDrawSimulator.MembersStep | sutekh/sutekh/gui/plugins/OpeningDrawSimulator.py:128-130 | one more entry extends a group's members and total |
| OpeningDrawSimulator.TallyStep | sutekh/sutekh/gui/plugins/OpeningDrawSimulator.py:128-130 | one more card counted into the group tally |
| OpeningDrawSimulator.TallyGroups | sutekh/sutekh/gui/plugins/OpeningDrawSimulator.py:128-130 | every group's count is the total count of the hand's cards in its list |
| OpeningDrawSimulator.TallyKeys | sutekh/sutekh/gui/plugins/OpeningDrawSimulator.py:128-130 | a group has a count exactly when the hand holds one of its cards |
| OpeningDrawSimulator.DrawRounds | sutekh/sutekh/gui/plugins/OpeningDrawSimulator.py:135-139 | three follow-up draws of a given size, each taking what remains when the list runs short |
| OpeningDrawSimulator.Breakdown | sutekh/sutekh/gui/plugins/OpeningDrawSimulator.py:128-143 | one breakdown: the group counts of the hand, then `fill_string` over them |
| OpeningDrawSimulator.DealHand | sutekh/sutekh/gui/plugins/OpeningDrawSimulator.py:119-145 | a hand of 7 and a crypt draw of 4 from the deck, their counts and breakdowns, and the follow-up draws, all drawn from the deck without replacement |
| OpeningDrawSimulator.DrawsAsWritten | sutekh/sutekh/gui/plugins/OpeningDrawSimulator.py:127-139 | as written, a hand is dealt exactly when the deck holds at least 22 library and 7 crypt cards |
| OpeningDrawSimulator.AcceptedDeckTooSmall | sutekh/sutekh/gui/plugins/OpeningDrawSimulator.py:43-51 | a library of 7 and a crypt of 4 pass `_get_card_info` yet are too small for the draws as written (also lines 135-139) |
| OpeningDrawSimulator.DealFits | sutekh/sutekh/gui/plugins/OpeningDrawSimulator.py:43-51 | with the draws taking what remains, every accepted deck deals, never taking more cards than it holds (also lines 119-139) |
| OpeningDrawSimulator.FullDecksFullRounds | sutekh/sutekh/gui/plugins/OpeningDrawSimulator.py:135-139 | on a deck large enough for the written code every follow-up draw is full, so the two agree |
| OpeningDrawSimulator.RecordTypes | sutekh/sutekh/gui/plugins/OpeningDrawSimulator.py:53-56 | a card type is recorded, with its card names, exactly when its first card is a library card |
| OpeningDrawSimulator.RecordFunctions | sutekh/sutekh/gui/plugins/OpeningDrawSimulator.py:58-62 | a card function is recorded, with its card names, exactly when it has a card |
| OpeningDrawSimulator.OpeningHandSimulator.constructor | sutekh/sutekh/gui/plugins/OpeningDrawSimulator.py:29-34 | a new simulator has no deck, no hands and no follow-up draws shown |
| OpeningDrawSimulator.OpeningHandSimulator.GetCardInfo | sutekh/sutekh/gui/plugins/OpeningDrawSimulator.py:36-64 | a library below 7 or a crypt below 4 is refused; otherwise the card types and functions are recorded |
| OpeningDrawSimulator.OpeningHandSimulator.ClearStats | sutekh/sutekh/gui/plugins/OpeningDrawSimulator.py:66-71 | the groups, the hands and the deck are forgotten |
| OpeningDrawSimulator.OpeningHandSimulator.LibCounts | sutekh/sutekh/gui/plugins/OpeningDrawSimulator.py:107-117 | the copies of each library card name |
| OpeningDrawSimulator.OpeningHandSimulator.DrawNewHand | sutekh/sutekh/gui/plugins/OpeningDrawSimulator.py:119-145 | the hand counter moves to a newly dealt hand, appended to the hands, and the follow-up draws start again |
| OpeningDrawSimulator.OpeningHandSimulator.RedrawHand | sutekh/sutekh/gui/plugins/OpeningDrawSimulator.py:147-150 | the follow-up draws of the shown hand are hidden again |
| OpeningDrawSimulator.OpeningHandSimulator.FillDialog | sutekh/sutekh/gui/generic/baseplugins/BaseOpeningDraw.py:222-247 | the details are hidden; with earlier hands the last is shown, with back possible from two hands on; otherwise a first hand is drawn |
| OpeningDrawSimulator.OpeningHandSimulator.NextHand | sutekh/sutekh/gui/generic/baseplugins/BaseOpeningDraw.py:251-293 | BACK shows the previous hand, FORWARD the next, drawing after the last, BREAKDOWN toggles the details, anything else closes |
| OpeningDrawSimulator.OpeningHandSimulator.Back | sutekh/sutekh/gui/generic/baseplugins/BaseOpeningDraw.py:263-267 | the previous hand is shown and back is disabled on the first |
| OpeningDrawSimulator.OpeningHandSimulator.Forward | sutekh/sutekh/gui/generic/baseplugins/BaseOpeningDraw.py:268-275 | back is enabled and the next hand shown, a new one drawn after the last |
| OpeningDrawSimulator.OpeningHandSimulator.ToggleDetails | sutekh/sutekh/gui/generic/baseplugins/BaseOpeningDraw.py:276-284 | the details are shown or hidden |
| OpeningDrawSimulator.OpeningHandSimulator.Shown | sutekh/sutekh/gui/plugins/OpeningDrawSimulator.py:155-158 | the hand the dialog shows |
| OpeningDrawSimulator.OpeningHandSimulator.MoreLib | sutekh/sutekh/gui/plugins/OpeningDrawSimulator.py:184-197 | the next of the three follow-up library draws is written out, until all three are |
| OpeningDrawSimulator.OpeningHandSimulator.MoreCrypt | sutekh/sutekh/gui/plugins/OpeningDrawSimulator.py:199-212 | the next of the three follow-up crypt draws is written out, until all three are |
| CardDrawSimulator.Fact | sutekh/sutekh/gui/plugins/CardDrawSimulator.py:18-31 | the factorial, positive |
| CardDrawSimulator.Choose | sutekh/sutekh/gui/plugins/CardDrawSimulator.py:18-31 | `choose` multiplies the falling product and k! up and divides: 1 for no choice, and the binomial coefficient for natural numbers |
| CardDrawSimulator.FallingTop | sutekh/sutekh/gui/plugins/CardDrawSimulator.py:27-29 | the falling product splits off its first factor |
| CardDrawSimulator.FallingBinom | sutekh/sutekh/gui/plugins/CardDrawSimulator.py:18-31 | the falling product is the binomial coefficient times k! |
| CardDrawSimulator.ChooseIsBinom | sutekh/sutekh/gui/plugins/CardDrawSimulator.py:18-31 | `choose(k, n)` counts the ways to pick k of n |
| CardDrawSimulator.BinomPositive | sutekh/sutekh/gui/plugins/CardDrawSimulator.py:18-31 | there is a way to pick k of n exactly when k is at most n |
| CardDrawSimulator.HyperProb | sutekh/sutekh/gui/plugins/CardDrawSimulator.py:33-54 | an error exactly for invalid values; 0 when more are to be found than drawn or than exist; otherwise hands with exactly that many over all hands |
| CardDrawSimulator.InvalidAnyFound | sutekh/sutekh/gui/plugins/CardDrawSimulator.py:39-43 | whether `hyper_prob` fails does not depend on a non-negative number to find |
| CardDrawSimulator.CryptCards | sutekh/sutekh/gui/plugins/CardDrawSimulator.py:117-122 | the number of crypt cards in a list |
| CardDrawSimulator.GetSelectedCards | sutekh/sutekh/gui/plugins/CardDrawSimulator.py:247-265 | the cards of the selected rows, with flags saying whether any is a crypt and whether any is a library card |
| CardDrawSimulator.BumpStep | sutekh/sutekh/gui/plugins/CardDrawSimulator.py:123-126 | counting one more selected copy |
| CardDrawSimulator.CountSelection | sutekh/sutekh/gui/plugins/CardDrawSimulator.py:111-126 | crypt and library sizes, each selected card's copies, and the number of selected copies |
| CardDrawSimulator.CountOne | sutekh/sutekh/gui/plugins/CardDrawSimulator.py:117-126 | one card of the list counted |
| CardDrawSimulator.CountStep | sutekh/sutekh/gui/plugins/CardDrawSimulator.py:117-126 | one more card counted |
| CardDrawSimulator.PickedCopies | sutekh/sutekh/gui/plugins/CardDrawSimulator.py:123-126 | a selected card has as many counted copies as listed ones |
| CardDrawSimulator.PickedIn | sutekh/sutekh/gui/plugins/CardDrawSimulator.py:123-126 | the counted cards are exactly the listed cards that are selected |
| CardDrawSimulator.PickedBound | sutekh/sutekh/gui/plugins/CardDrawSimulator.py:117-126 | an all-crypt selection has at most the crypt's copies, an all-library one at most the library's |
| CardDrawSimulator.CardDrawSimPlugin.constructor | sutekh/sutekh/gui/plugins/CardDrawSimulator.py:68-75 | a new plugin starts with no selection counts and every setting 0 |
| CardDrawSimulator.CardDrawSimPlugin.StepsChanged | sutekh/sutekh/gui/plugins/CardDrawSimulator.py:267-269 | the step becomes the chosen one |
| CardDrawSimulator.CardDrawSimPlugin.RowsChanged | sutekh/sutekh/gui/plugins/CardDrawSimulator.py:271-273 | the row count becomes the chosen one |
| CardDrawSimulator.CardDrawSimPlugin.ColsChanged | sutekh/sutekh/gui/plugins/CardDrawSimulator.py:275-277 | the column count becomes the chosen one |
| CardDrawSimulator.CardDrawSimPlugin.FillTable | sutekh/sutekh/gui/plugins/CardDrawSimulator.py:282-344 | the zero row first then the others: raises at the first column `hyper_prob` refuses, otherwise row j, column c holds the chance of exactly j selected cards in that column's draws |
| CardDrawSimulator.CardDrawSimPlugin.FillRow | sutekh/sutekh/gui/plugins/CardDrawSimulator.py:332-343 | one row after the zero row: each column's exact chance |
| CardDrawSimulator.CardDrawSimPlugin.SizeTable | sutekh/sutekh/gui/plugins/CardDrawSimulator.py:111-148 | the counts, then the opening draw, total and column, row and step settings |
| CardDrawSimulator.CardDrawSimPlugin.Activate | sutekh/sutekh/gui/plugins/CardDrawSimulator.py:93-240 | complains about an empty or mixed selection or a deck not larger than the opening draw; otherwise sizes the table, raises IndexError at the label exactly when no selected card is in the list, and else shows the table of exact chances, which never fails with the opening step of one |
| CardDrawSimulator.CardDrawSimPlugin.FillOutcome | sutekh/sutekh/gui/plugins/CardDrawSimulator.py:117-148 | the selected copies are at most the deck, and none exactly when no selected card is listed |
| CardDrawSimulator.CardDrawSimPlugin.ShownTable | sutekh/sutekh/gui/plugins/CardDrawSimulator.py:324-343 | the table filled with a step of one holds the exact chances by row and column |
| CardDrawSimulator.CardDrawSimPlugin.DefaultColumns | sutekh/sutekh/gui/plugins/CardDrawSimulator.py:133-150 | with the step of one no column draws more than the deck, so the table fails only when no selected card is listed (also lines 325-330) |
| CardDrawSimulator.LargeStepRaises | sutekh/sutekh/gui/plugins/CardDrawSimulator.py:146 | a step above one can raise: a crypt of 12 offers 8 columns and 8 columns of step 2 draw 18 cards (also lines 178-188, 325-330) |
| PyStr.SignSpaceParses | sutekh/sutekh/io/CSVParser.py:61 | the count `int` reads is Python 2's: a sign, any whitespace and decimal digits read as the signed number |
| PyStr.SignThenSpace | sutekh/sutekh/io/CSVParser.py:61 | `- 3` reads as -3 and `+ 7` as 7 |
| CSVParser.RowMeaning | sutekh/sutekh/io/CSVParser.py:56-72 | a blank name skips the row; otherwise a staged row carries the stripped name, the count `int` reads and the stripped expansion unless it is `None Specified`; a bad count or an unknown expansion is an error with its cause |
| CSVParser.CSVParser.constructor | sutekh/sutekh/io/CSVParser.py:30-38 | the columns, header flag and file type are kept, and only the three known file types are admitted |
| CSVParser.CSVParser.ProcessRow | sutekh/sutekh/io/CSVParser.py:56-72 | a staged row is added to the holder; a skipped row or one that raises adds nothing |
| CSVParser.CSVParser.Parse | sutekh/sutekh/io/CSVParser.py:74-86 | the holder is named; an empty file with a header raises at the header; otherwise the rows after the header are staged in order until one raises, and those staged before stay staged |
| CSVParser.CSVParser.StageRows | sutekh/sutekh/io/CSVParser.py:82-86 | the rows after the skipped ones are staged in order until one raises |
| CSVParser.CSVParser.StageRow | sutekh/sutekh/io/CSVParser.py:82-84 | one row of the loop goes through `_process_row`: the holder gains that row's entry, if any, and the error is that row's |
| CSVParser.RowStep | sutekh/sutekh/io/CSVParser.py:82-86 | after a row that raises, the staged entries and the error are those of the whole file; after one that does not, the next prefix still has no error |
| CSVParser.OutcomeNext | sutekh/sutekh/io/CSVParser.py:82-84 | before any row raises, each row adds its step |
| CSVParser.OutcomeAll | sutekh/sutekh/io/CSVParser.py:82-86 | once a row raises, the later rows change nothing |
| CSVParser.OutcomeClean | sutekh/sutekh/io/CSVParser.py:82-86 | a parse raises exactly when some row after the skipped ones raises |
| CSVParser.OutcomeLine | sutekh/sutekh/io/CSVParser.py:85-86 | a ValueError names the line of the first row that raises, and that row's count is a text `int` refused |
| CSVParser.StagedFrom | sutekh/sutekh/io/CSVParser.py:82-84 | every staged entry comes from a row after the skipped ones |
| CSVParser.StagedNamed | sutekh/sutekh/io/CSVParser.py:57-61 | every staged entry has its row's non-empty stripped name and the count read from it |
| CSVParser.HeaderIgnored | sutekh/sutekh/io/CSVParser.py:79-80 | the header row is never read: any first row gives the same outcome |
| PhysicalCardMapping.RemapNames | sutekh/sutekh/core/PhysicalCardMappingHolder.py:28-39 | the name without spaces, encoded to ASCII with character references, without punctuation, and prefixed by `a` when it starts with a digit; nothing when no character is left |
| PhysicalCardMapping.PunctMember | sutekh/sutekh/core/PhysicalCardMappingHolder.py:35 | a character is in `string.punctuation` exactly when it is punctuation |
| PhysicalCardMapping.UnpunctIsWithout | sutekh/sutekh/core/PhysicalCardMappingHolder.py:35-36 | replacing each punctuation character in turn leaves the string without punctuation |
| PhysicalCardMapping.UnpunctChars | sutekh/sutekh/core/PhysicalCardMappingHolder.py:35-36 | what is left is the string's characters that are not punctuation |
| PhysicalCardMapping.UnpunctConcat | sutekh/sutekh/core/PhysicalCardMappingHolder.py:35-36 | stripping punctuation distributes over concatenation |
| PhysicalCardMapping.EncodeAsciiChars | sutekh/sutekh/core/PhysicalCardMappingHolder.py:34 | an encoded string is ASCII, each character from the string or part of a character reference |
| PhysicalCardMapping.EncodeAsciiKeeps | sutekh/sutekh/core/PhysicalCardMappingHolder.py:34-36 | a character that is not punctuation leaves something behind once encoded and stripped |
| PhysicalCardMapping.Stripped | sutekh/sutekh/core/PhysicalCardMappingHolder.py:34-36 | the stripped name is ASCII without spaces or punctuation, and empty exactly when the name is all spaces and punctuation |
| PhysicalCardMapping.UnpunctAllPunct | sutekh/sutekh/core/PhysicalCardMappingHolder.py:35-36 | punctuation alone leaves nothing |
| PhysicalCardMapping.EncodeAsciiPlain | sutekh/sutekh/core/PhysicalCardMappingHolder.py:34 | ASCII text is unchanged by the encoding |
| PhysicalCardMapping.RemappedTag | sutekh/sutekh/core/PhysicalCardMappingHolder.py:28-39 | a tag is non-empty ASCII without spaces or punctuation and does not start with a digit; there is none exactly when the name is all spaces and punctuation |
| PhysicalCardMapping.CardIndex | sutekh/sutekh/core/PhysicalCardMappingHolder.py:100 | `find(tag)` gives the first card node with that tag |
| PhysicalCardMapping.ExpIndex | sutekh/sutekh/core/PhysicalCardMappingHolder.py:108 | `find(tag)` gives the first expansion node with that tag |
| PhysicalCardMapping.CardDb.constructor | sutekh/sutekh/core/PhysicalCardMappingHolder.py:90 | the database with its catalogue and card set rows |
| PhysicalCardMapping.SetsOfMembers | sutekh/sutekh/core/PhysicalCardMappingHolder.py:116-118 | the card sets a physical card belongs to |
| PhysicalCardMapping.Drop | sutekh/sutekh/core/PhysicalCardMappingHolder.py:76 | every mapping row except the one removed |
| PhysicalCardMapping.SetNodesNamed | sutekh/sutekh/core/PhysicalCardMappingHolder.py:116-120 | the set nodes are the card's sets, each tagged by its name |
| PhysicalCardMapping.ExpIdCountUpdate | sutekh/sutekh/core/PhysicalCardMappingHolder.py:108-114 | adding an id node under an expansion node adds one id node |
| PhysicalCardMapping.IdCountUpdate | sutekh/sutekh/core/PhysicalCardMappingHolder.py:100-114 | adding an id node under a card node adds one id node |
| PhysicalCardMapping.PlaceCount | sutekh/sutekh/core/PhysicalCardMappingHolder.py:99-114 | placing a card adds exactly one id node |
| PhysicalCardMapping.PlaceListed | sutekh/sutekh/core/PhysicalCardMappingHolder.py:99-114 | placing keeps every id node and puts the new one under the card and expansion tags |
| PhysicalCardMapping.PlaceExpListed | sutekh/sutekh/core/PhysicalCardMappingHolder.py:108-114 | within a card node placing keeps every id node and lists the new one under the expansion tag |
| PhysicalCardMapping.PlaceWellFormed | sutekh/sutekh/core/PhysicalCardMappingHolder.py:99-114 | placing keeps the tree well formed: one node per tag, each with its name |
| PhysicalCardMapping.AppendWellFormed | sutekh/sutekh/core/PhysicalCardMappingHolder.py:101-103 | a new card node keeps the tree well formed |
| PhysicalCardMapping.UpdateWellFormed | sutekh/sutekh/core/PhysicalCardMappingHolder.py:100-114 | changing an existing card node keeps the tree well formed |
| PhysicalCardMapping.ExpAppendWellFormed | sutekh/sutekh/core/PhysicalCardMappingHolder.py:109-112 | a new expansion node keeps the card node well formed |
| PhysicalCardMapping.ExpUpdateWellFormed | sutekh/sutekh/core/PhysicalCardMappingHolder.py:108-114 | changing an existing expansion node keeps the card node well formed |
| PhysicalCardMapping.InsertStep | sutekh/sutekh/core/PhysicalCardMappingHolder.py:98-120 | one physical card keeps the tree well formed, adds one id node, keeps the others and lists the card under its tags |
| PhysicalCardMapping.FillPlaces | sutekh/sutekh/core/PhysicalCardMappingHolder.py:90-120 | the filled tree is well formed, holds one id node per physical card, each holding a set node per card set it is in, under its card name's node and its expansion's node (`Unspecified Expansion` for none) |
| PhysicalCardMapping.AddMissingEffect | sutekh/sutekh/core/PhysicalCardMappingHolder.py:67-72 | the card is added to exactly the named sets it was not in; only an exception stops the loop |
| PhysicalCardMapping.RemoveExtrasEffect | sutekh/sutekh/core/PhysicalCardMappingHolder.py:73-76 | the card is removed from exactly its sets without a node of their tag; only an exception stops the loop |
| PhysicalCardMapping.FixCardEffect | sutekh/sutekh/core/PhysicalCardMappingHolder.py:62-76 | the card joins every set named under its id node that it was not in, leaves every set of its own without a node of that tag, and no other card's rows change |
| PhysicalCardMapping.FixCardExact | sutekh/sutekh/core/PhysicalCardMappingHolder.py:62-76 | with set nodes tagged by their names and no tag clashes, the card ends up in exactly the sets named under its id node |
| PhysicalCardMapping.ExactFromEffect | sutekh/sutekh/core/PhysicalCardMappingHolder.py:62-76 | the exact membership follows from the effect of the two loops |
| PhysicalCardMapping.FixAllRaises | sutekh/sutekh/core/PhysicalCardMappingHolder.py:60-76 | `_fix_mapping` never stops with False, only with an exception |
| PhysicalCardMapping.CommitExpsChecks | sutekh/sutekh/core/PhysicalCardMappingHolder.py:149-159 | one card node commits when every expansion node passes, and stops with False only at a count mismatch |
| PhysicalCardMapping.CommitChecks | sutekh/sutekh/core/PhysicalCardMappingHolder.py:139-160 | True only when every expansion node passed, False only at an expansion node whose count differs from the database's |
| PhysicalCardMapping.MappingHolder.constructor | sutekh/sutekh/core/PhysicalCardMappingHolder.py:85-87 | a new holder has no tree |
| PhysicalCardMapping.MappingHolder.GetString | sutekh/sutekh/core/PhysicalCardMappingHolder.py:128-135 | `''` exactly when there is no tree or the root has no children |
| PhysicalCardMapping.MappingHolder.FillFromDb | sutekh/sutekh/core/PhysicalCardMappingHolder.py:90-120 | the holder's tree is the tree of all physical cards, or the error of the first card that fails |
| PhysicalCardMapping.MappingHolder.CommitToDb | sutekh/sutekh/core/PhysicalCardMappingHolder.py:139-160 | False without a tree; otherwise the mapping rows as fixed node by node, stopping with False at the first count that differs |
| PhysicalCardMapping.InsertOne | sutekh/sutekh/core/PhysicalCardMappingHolder.py:98-120 | one physical card: its tags, its id node with one set node per set it is in, placed in the tree |
| PhysicalCardMapping.FillStops | sutekh/sutekh/core/PhysicalCardMappingHolder.py:98-120 | once a physical card fails, the whole fill fails the same way |
| PhysicalCardMapping.MakeSetNodes | sutekh/sutekh/core/PhysicalCardMappingHolder.py:116-120 | one set node per card set of the card, or the error of a set name without a tag |
| PhysicalCardMapping.SetNodesStop | sutekh/sutekh/core/PhysicalCardMappingHolder.py:116-120 | once a set name fails, the set nodes fail the same way |
| PhysicalCardMapping.CommitCardsStopped | sutekh/sutekh/core/PhysicalCardMappingHolder.py:148-159 | once a card node stops the commit, the later ones change nothing |
| PhysicalCardMapping.CommitCard | sutekh/sutekh/core/PhysicalCardMappingHolder.py:149-159 | the inner commit loop over one card node's expansion nodes |
| PhysicalCardMapping.CommitExpsStopped | sutekh/sutekh/core/PhysicalCardMappingHolder.py:149-159 | once an expansion node stops the commit, the later ones change nothing |
| PhysicalCardMapping.PhysCards | sutekh/sutekh/core/PhysicalCardMappingHolder.py:40-57 | an unknown expansion raises first, even when the card is unknown too; otherwise an unknown card (after the lookup of renamed cards) raises, and a known one gives its physical cards of that expansion, or of none for `Unspecified Expansion` |
| PhysicalCardMapping.CommitExpansion | sutekh/sutekh/core/PhysicalCardMappingHolder.py:150-159 | an expansion node with one id node is skipped, a count mismatch stops with False, and otherwise the mapping is fixed |
| PhysicalCardMapping.FixMapping | sutekh/sutekh/core/PhysicalCardMappingHolder.py:60-76 | the loop over id nodes and physical cards together, as `zip` pairs them |
| PhysicalCardMapping.FixAllStopped | sutekh/sutekh/core/PhysicalCardMappingHolder.py:62-76 | once a card raises, the later cards change nothing |
| PhysicalCardMapping.FixOne | sutekh/sutekh/core/PhysicalCardMappingHolder.py:63-76 | a card's sets are read once, the missing ones get it, then the extra ones lose it |
| PhysicalCardMapping.AddMissingStopped | sutekh/sutekh/core/PhysicalCardMappingHolder.py:67-72 | once a set addition raises, the later ones change nothing |
| PhysicalCardMapping.RemoveExtrasStopped | sutekh/sutekh/core/PhysicalCardMappingHolder.py:73-76 | once a removal raises, the later ones change nothing |
| DataPack.StripEach | sutekh/sutekh/io/DataPack.py:96 | each piece stripped of spaces and single quotes at both ends |
| DataPack.LeadLen | sutekh/sutekh/io/DataPack.py:96 | the number of spaces and quotes a piece starts with, at most its length |
| DataPack.StripByStrips | sutekh/sutekh/io/DataPack.py:96 | stripping keeps the middle slice, with only spaces and quotes around it and none at its ends |
| DataPack.FieldsShape | sutekh/sutekh/io/DataPack.py:93-96 | the fields are the pieces between the `\|\|` separators of the stripped line, which join back to it, each with its spaces and quotes removed |
| DataPack.IndexOf | sutekh/sutekh/io/DataPack.py:120-124 | `index` gives the first position of the field, nothing when it is absent |
| DataPack.UpToBreak | sutekh/sutekh/io/DataPack.py:85 | the part of a line before its first line break, which `.` cannot match |
| DataPack.PathUrlMeaning | sutekh/sutekh/io/DataPack.py:131-139 | a path gives a URL exactly when it has a `:`; the URL is the base, the path after the zip name with `:` as `/`, then the zip name |
| DataPack.RowEntryMeaning | sutekh/sutekh/io/DataPack.py:128-142 | a row gives an entry exactly when its tag field is the tag, its file field holds an attachment path with a URL and the row reaches the date and checksum columns; the entry holds that URL, date and checksum |
| DataPack.ScanFromConcat | sutekh/sutekh/io/DataPack.py:113-143 | scanning two pieces in turn is scanning them together |
| DataPack.NoHeaderKeepsStart | sutekh/sutekh/io/DataPack.py:114-126 | lines that are not an accepted header leave the scan where it started |
| DataPack.BeforeHeaderIgnored | sutekh/sutekh/io/DataPack.py:113-126 | lines before the header are ignored, whatever they hold |
| DataPack.RowsHashWhenColumn | sutekh/sutekh/io/DataPack.py:140-141 | a checksum is collected for every entry exactly when the header has a checksum column |
| DataPack.FromRowsSkip | sutekh/sutekh/io/DataPack.py:128-130 | a line that gives nothing keeps the lists |
| DataPack.AddEntryKeeps | sutekh/sutekh/io/DataPack.py:138-142 | appending an entry keeps the earlier ones in place |
| DataPack.FromRowsAdd | sutekh/sutekh/io/DataPack.py:138-142 | a line that gives an entry appends it to the lists |
| DataPack.ScanFound | sutekh/sutekh/io/DataPack.py:113-143 | the lists grow together, nothing comes from before the header, and after it each producing row gives exactly its own entry, in order |
| DataPack.ScanNext | sutekh/sutekh/io/DataPack.py:113-143 | the scan of one more line |
| DataPack.ScanStopped | sutekh/sutekh/io/DataPack.py:113-143 | once the scan has raised, the rest of the page does not matter |
| DataPack.FindAllDataPacks | sutekh/sutekh/io/DataPack.py:64-144 | three `None`s when the page cannot be opened, the three lists when the scan completes, the scan's error otherwise |
| DataPack.LatestRow | sutekh/sutekh/io/DataPack.py:156-164 | the row the last URL comes from also gives the last checksum |
| DataPack.FindDataPackRow | sutekh/sutekh/io/DataPack.py:147-164 | the URL returned is the last a row gives, and the checksum returned is from that same row |
| DataPack.RowsHaveTag | sutekh/sutekh/io/DataPack.py:129 | a row gives an entry only when one of its fields is the tag |
| DataPack.FindDataPackNone | sutekh/sutekh/io/DataPack.py:156-160 | a page where no field equals the tag gives `(None, None)`, or the scan's error |
| DataPack.ProgressTotal | sutekh/sutekh/io/DataPack.py:185 | the number of 10000-byte steps, rounded up |
| DataPack.CheckHash | sutekh/sutekh/io/DataPack.py:223-229 | with a checksum, a digest and data, a different digest raises HashError with the data; otherwise the data is returned |
| IconManager.Framed | sutekh/sutekh/gui/IconManager.py:23-28 | a prefix, a middle and a suffix are recovered from their join |
| IconManager.CapitalisedTake | sutekh/sutekh/gui/IconManager.py:23-28 | capitalising a prefix of a name |
| IconManager.ClanFileNameStem | sutekh/sutekh/gui/IconManager.py:20-29 | `IconClan`, a stem and `.gif`: for an antitribu the next three characters capitalised and `A`, `Tzi` for Tzimisce, otherwise the first three capitalised |
| IconManager.ClanFileNameFirstFour | sutekh/sutekh/gui/IconManager.py:20-29 | only the first four characters of the shortname matter |
| IconManager.CardTypeFileNameCases | sutekh/sutekh/gui/IconManager.py:31-46 | no icon exactly for Master, Vampire and Imbued; every name ends in `.gif`; Conviction, Equipment, Political Action and Action Modifier have their own names, others `IconType` and the capitalised name |
| IconManager.CreedFileNameStem | sutekh/sutekh/gui/IconManager.py:48-51 | `IconCreed`, the capitalised first three characters, `.gif` |
| IconManager.VirtueFileNameStem | sutekh/sutekh/gui/IconManager.py:64-67 | `IconVirtue`, the whole capitalised name, `.gif` |
| IconManager.DisciplineLevels | sutekh/sutekh/gui/IconManager.py:53-62 | the superior icon of a discipline other than Flight is the inferior one with `2` before `.gif`; superior Flight is `IconFlight.gif` |
| IconManager.PositionAt | sutekh/sutekh/gui/IconManager.py:88-100 | byte j of row k is read at position k times the row length plus j |
| IconManager.PositionNoRows | sutekh/sutekh/gui/IconManager.py:96-100 | with a row length of 0 every byte stays in the first row |
| IconManager.CheckMargins | sutekh/sutekh/gui/IconManager.py:75-81 | the new minimum and maximum take in the value and move only to it |
| IconManager.OpaqueBox | sutekh/sutekh/gui/IconManager.py:85-100 | the scan gives the margins of the opaque pixels of the image |
| IconManager.BoxBounds | sutekh/sutekh/gui/IconManager.py:86-95 | the margins bound every opaque pixel; the maxima stay -1 exactly when none is opaque, and the minima never exceed 1000 |
| IconManager.BoxAttained | sutekh/sutekh/gui/IconManager.py:86-95 | each margin that moved is the coordinate of an opaque pixel |
| IconManager.CropAlpha | sutekh/sutekh/gui/IconManager.py:70-102 | the rectangle starts one past the least opaque column and row and ends at the greatest |
| IconManager.CropRegionCovers | sutekh/sutekh/gui/IconManager.py:101-102 | every opaque pixel right of the least opaque column and below the least opaque row is inside, and the last column and row are the greatest opaque ones |
| IconManager.RememberKeeps | sutekh/sutekh/gui/IconManager.py:123-144 | an entry once made is never replaced, not even a failed load, and the file asked for is then held |
| IconManager.RememberOnce | sutekh/sutekh/gui/IconManager.py:123-124 | asking again at any size changes nothing |
| IconManager.RememberAllHolds | sutekh/sutekh/gui/IconManager.py:147-189 | after the requests the cache keeps what it had and holds every file asked for |
| IconManager.IconsOfExtends | sutekh/sutekh/gui/IconManager.py:147-189 | a cache that keeps the files asked for gives the same dictionary |
| IconManager.IconsOfKeys | sutekh/sutekh/gui/IconManager.py:147-189 | the dictionary has exactly the keys asked for |
| IconManager.IconsOfLast | sutekh/sutekh/gui/IconManager.py:147-189 | the icon under a key is the cached icon of the last request with that key |
| IconManager.RequestsFor | sutekh/sutekh/gui/IconManager.py:150-188 | one request per value: its key, file name and size (14 for a superior discipline, 12 otherwise) |
| IconManager.IconManager.constructor | sutekh/sutekh/gui/IconManager.py:114-117 | a new manager has an empty cache |
| IconManager.IconManager.GetIcon | sutekh/sutekh/gui/IconManager.py:119-145 | none for the empty name; the kept icon for a file asked for before; otherwise the load's result, kept |
| IconManager.IconManager.GetIconByName | sutekh/sutekh/gui/IconManager.py:191-197 | `burn option` and `advanced` load their fixed icon files through the cache at size 12; any other name raises UnboundLocalError and leaves the cache as it was |
| IconManager.IconManager.IconMap | sutekh/sutekh/gui/IconManager.py:147-189 | each request's icon under its key, the cache as after all the requests |
| IconManager.IconManager.GetIconList | sutekh/sutekh/gui/IconManager.py:199-215 | none for no values or values of a kind without icons; otherwise the dictionary of their icons under their names, the cache keeping every file asked for |
| CachedIconManager.CropAlpha | sutekh/sutekh/base/gui/CachedIconManager.py:17-52 | the image is left alone when the opaque margins do not span two columns and two rows, and cut to them otherwise |
| CachedIconManager.CropForCuts | sutekh/sutekh/base/gui/CachedIconManager.py:48-52 | no opaque pixel leaves the image alone; two opaque columns and rows cut it, and (within 1000 pixels) only then |
| CachedIconManager.CutRegion | sutekh/sutekh/base/gui/CachedIconManager.py:51-52 | a cut has a positive width and height and ends at the greatest opaque column and row |
| CachedIconManager.CachedIconManager.constructor | sutekh/sutekh/base/gui/CachedIconManager.py:62-64 | a new manager has an empty cache |
| CachedIconManager.CachedIconManager.GetIcon | sutekh/sutekh/base/gui/CachedIconManager.py:66-92 | none for the empty name; the kept icon for a file asked for before; otherwise the load's result, kept |
| CachedIconManager.CachedIconManager.DownloadIcons | sutekh/sutekh/base/gui/CachedIconManager.py:99-101 | the cache is emptied, so every icon is loaded afresh |
| CardImages.ConvertExpansionMeaning | sutekh/sutekh/gui/plugins/CardImages.py:50-72 | empty for an empty name, hidden expansions or an unknown expansion; otherwise the lower-cased name with spaces as `_` and apostrophes gone, so no space, apostrophe or upper case is left |
| CardImages.SpacesAndApostrophes | sutekh/sutekh/gui/plugins/CardImages.py:71 | replacing spaces by `_` and dropping apostrophes leaves neither and brings in no upper case |
| CardImages.SitePathRenames | sutekh/sutekh/gui/plugins/CardImages.py:82-93 | exactly the six local directories are renamed, each to a name not itself renamed |
| CardImages.MakeCardUrlShape | sutekh/sutekh/gui/plugins/CardImages.py:78-95 | empty exactly when a part is missing; otherwise the host, the site's directory and the file name |
| CardImages.CardUrlWhenDirectory | sutekh/sutekh/gui/plugins/CardImages.py:74-95 | there is an address exactly when the expansion gives a directory, and it ends with the card's file name |
| CardImages.NormCardName | sutekh/sutekh/gui/plugins/CardImages.py:97-109 | the file name: the article moved, `(advanced)` shortened, each dropped character removed, `.jpg` added |
| CardImages.NormNameDeletes | sutekh/sutekh/gui/plugins/CardImages.py:104-108 | removing the dropped characters one by one is leaving them out |
| CardImages.NormNameMeaning | sutekh/sutekh/gui/plugins/CardImages.py:97-109 | the file name ends in `.jpg` and its stem keeps exactly the characters of the moved and shortened name that are not dropped |
| CardImages.TheKept | sutekh/sutekh/gui/plugins/CardImages.py:101-106 | the letters of `the` are not dropped |
| CardImages.AdvKept | sutekh/sutekh/gui/plugins/CardImages.py:104-106 | the letters of `adv` are not dropped |
| CardImages.SpaceDropped | sutekh/sutekh/gui/plugins/CardImages.py:106 | a space is dropped |
| CardImages.NormNameThe | sutekh/sutekh/gui/plugins/CardImages.py:100-108 | for a name without parentheses, a leading `the ` goes to the end as `the` and the rest loses its dropped characters |
| CardImages.AdvancedShortened | sutekh/sutekh/gui/plugins/CardImages.py:104 | a final ` (advanced)` after text without parentheses becomes ` adv` |
| CardImages.AdvancedKept | sutekh/sutekh/gui/plugins/CardImages.py:104-107 | the space before `adv` is dropped and `adv` is kept |
| CardImages.NormNameAdvanced | sutekh/sutekh/gui/plugins/CardImages.py:97-109 | for an advanced card named without an article or other parentheses, the file name is the base without dropped characters, `adv` and `.jpg` |

## Left out

- Network access is out of the model: `urlopen`, the `fetch_data` read loop, icon and image downloads, and `IconManager.download_icons`. The page text, the downloaded data and the digest are parameters.
- SHA-256 is a foreign library. The digest is a parameter of `DataPack.CheckHash`.
- Image files and GTK pixbufs are out of the model. Loading and scaling in `_get_icon` is a load function the caller supplies, and the subpixbuf cut becomes a cropping region.
- The CardImages file checks `_have_expansions` and `check_images` are left out because they test the file system. The expansion lookup and `unaccent` are parameters.
- Floating point is out of the model: the `hyper_prob` ratio is kept as a whole-number numerator and denominator. `hyper_prob_at_least`, `hypergeometric_mean`, `get_probs` and the icon aspect scaling are left out.
- Random choice in `draw_x_cards` is a choice parameter. Any sequence of picks is allowed, and no distribution is claimed.
- SQL and SQLObject query building are left out. Joins, aliases, the `IN` and `LIKE` builders and `select().max()` become predicates over card records, and the catalogue maximum is a parameter.
- The BaseFilters box classes are not part of this model. Their combinations are the boolean operations on predicates they stand for.
- In SQL `IN`, a NULL column matches no list. A `None` entry in the multi-cost-type filter's list therefore selects nothing.
- The card-name filter's `LIKE` is a containment test of the lowercased pattern on the canonical name.
- `detect_loop`, `break_loop`, `get_loop_names` and the CardSetHolder implementation are not part of this model. They are specified from their call sites: a loop is a repeated set on the walk up the parent links, and breaking it clears the parent link that closes it.
- `lower()` lowers only the ASCII letters. Unicode case mapping is not modelled.
- The GTK widgets, dialogs, menus, the plugin manager and event wiring are left out. Dialog answers and widget values are parameters.
- The `getDefaultPropFuncs` loops are left out because their lambdas late-bind the loop variable (sutekh/sutekh/CardListTabulator.py:49-67 and line 59). The tabulator takes its property functions as a parameter.
- `fill_from_string` is left out because `fromstring` is a foreign XML parser. `PhysicalCardMapping.MappingHolder.GetString` serialises the tree with a small writer of its own, which escapes `&`, `<`, `>` and `"` in attribute values. It is not claimed to match ElementTree's `tostring` byte for byte.
- The per-table ORM copying in DatabaseUpgrade.py and DatabaseVersion's table-version lookup are persistence plumbing. The copy steps are given as results, not performed, and whether each table's version is readable is a parameter of `UpgradeResults.CheckCanRead`.
- UpgradeResults.ReadOutcome: the `return False` at sutekh/sutekh/core/generic/BaseDatabaseUpgrade.py:90 has no counterpart, because the only version check (sutekh/sutekh/core/DatabaseUpgrade.py:141-204) returns True or raises. Were a check to answer False, the unpacking at line 248 would raise TypeError; that latent case is not modelled.
- PyStr.ParseInt reads a byte string as Python 2's `int` does. The Unicode digits and Unicode whitespace that `int` also accepts in a unicode string are not modelled.
- Cards.IsCryptCard, Cards.IsVampire, Cards.VampireIsCrypt, Groupings.CryptLibraryKeys, CountCardSetCards.CryptCount, CountCardSetCards.CardSetCounter.Load, CountCardSetCards.CardSetCounter.Adjust, CountCardSetCards.CardSetCounter.AlterCardCount, CountCardSetCards.CardSetCounter.AddNewCard, CountWWListCards.WWListCounter.Load, CardDrawSimulator.CryptCards, CardDrawSimulator.GetSelectedCards, CardDrawSimulator.CountSelection and CardDrawSimulator.CardDrawSimPlugin.Activate require every card to have at least one card type. A card without one makes the source raise IndexError at `cardtype[0]` (sutekh/sutekh/SutekhUtility.py:112 and 117, sutekh/sutekh/gui/plugins/CardDrawSimulator.py:119); that error path is not modelled.
- IconManager.ClanFileName, IconManager.ClanFileNameStem, IconManager.ClanFileNameFirstFour, IconManager.RequestsFor and IconManager.IconManager.GetIconList require a clan's short name to be non-empty. An empty one makes the source raise IndexError at `shortname[0]` (sutekh/sutekh/gui/IconManager.py:22); that error path is not modelled.
- Objects.FindDiscipline looks a discipline up by its exact stored name. The source first maps the name through `Disciplines.canonical` (sutekh/sutekh/core/Objects.py:392-400), so abbreviations and alternative spellings resolve there; that table is not part of this model. Objects.MakeDiscipline, Filters.DisciplineMatches, Filters.DisciplineLevelMatches, Filters.MultiDisciplineMatches and Filters.MultiDisciplineLevelMatches inherit the exact-name lookup.
- Filters.NewMultiDisciplineLevelFilter takes (discipline, level) pairs. The string form, in which each element reads `<discipline> with <level>` and `split_list` splits it (sutekh/sutekh/core/Filters.py:150-151), is left out because `split_list` is not part of this model.
- CardSetFunctions.ImportCs takes whether the card lookup was cancelled as a parameter. The lookup inside `create_pcs` is not part of this model, so a cancelled lookup is taken to raise LookupFailed before the set is created.
- CSVParser `_commit_holder` is left out because it is a database transaction. The holder's staged contents are the result.
- When `fill_from_db` fails on an unknown card, the model stops at that card. The partly built tree that the source leaves behind is not described further. `removePhysicalCard` is used only through the membership tables.
- The Sect and Title groupings are modelled as plain key lists. The database joins they read from are not modelled.
- Configuration, the object caches, the OS path helpers and the `read_*` loaders are left out because they are environment plumbing.
- `CardSetFunctions.ImportCs` with an empty name and a Replace answer keeps the source's behaviour. The set named `""` is deleted and the import then ends as cancelled, so "unchanged" is promised only when the answer was not Replace.
- `get_import_name` with a Replace answer and no name raises in the source. The model returns `ReplaceFailed` instead of raising.
- `DatabaseUpgrade.CopyPhysicalCardSetLoop` requires the parent relation to be acyclic and closed. On a cyclic relation the source loops for ever, and a lemma shows such a round makes no progress.
- `CardDrawSimulator.LargeStepRaises` only exhibits that a step larger than one can ask for more draws than the deck holds. `hyper_prob` then raises. The dialog's step setting is otherwise unconstrained, as in the source.

## Findings

| source | as written | input that shows it | evidently intended | confidence | as-written member | corrected member |
|---|---|---|---|---|---|---|
| sutekh/sutekh/core/Objects.py:345-351 | the lookup uses the unstripped, lowercased name, but the new card is created under the stripped name | the name `Foo ` while `foo` is stored: the lookup misses, and inserting a second `foo` breaks the unique canonical name | return the card already stored under the stripped name | not executed | Objects.MakeAbstractCardPaddedName | Objects.MakeAbstractCard |
| sutekh/sutekh/core/generic/BaseDatabaseUpgrade.py:88-90 | `do_read_old_database` calls `check_can_read_old_database`, which the module neither defines nor imports (its imports are lines 20-27; the function lives in sutekh/core/DatabaseUpgrade.py, which imports from this module) | any call of the read, as reached from DatabaseUpgrade.py:665: the name lookup raises NameError, which the `except UnknownVersion` does not catch, so no upgrade succeeds | the read runs the version check of DatabaseUpgrade.py:141-204 and then copies the tables | not executed | UpgradeResults.AsWrittenNeverUpgrades | UpgradeResults.CheckedUpgrade |
| sutekh/sutekh/gui/plugins/OpeningDrawSimulator.py:43-51 | card info accepts a library of 7 and a crypt of 4, but each hand also draws three more batches of 5 library cards and 1 crypt card (lines 135-139) | a library of 7 and a crypt of 4: the first follow-up draw calls `choice` on an empty list, which raises IndexError | deal only what the deck holds, or reject decks under 22 library and 7 crypt cards | not executed | OpeningDrawSimulator.AcceptedDeckTooSmall | OpeningDrawSimulator.DealFits |
