# English dictionary: ordered word index, record builders and HTML formatters

A Dafny model of the core of a personal dictionary application written in
Python. The repository holds two revisions of the same modules, and both are
modelled:

- the current revision under `english_dictionary/`:
  - `types.py`: `OrderedList`, `WordData` and `Dictionary`;
  - `utils/helpers.py`: `binary_search` and `convert_to_list`;
  - `api.py`: `BaseAPIBuilder.from_free_dictionary_api`;
  - `utils/formatter.py`: `BaseAPIFormatter`;
- the old revision:
  - `utils/types.py`: `OrderedList`, the records and `Dictionary`;
  - `utils/functions.py`: `binary_search`;
  - `utils/formatter.py`: `FormatWord`;
  - `wiktionaryparser/utils.py`: the wiktionary records.

An `OrderedList` keeps its elements sorted. Without duplicates the order is
strict. `Dictionary` is an `OrderedList` of `WordData` compared by lower-cased
name. `from_free_dictionary_api` reshapes the Free Dictionary API's records
into the application's own entry form. The formatters turn a word into HTML
sections: each is wrapped in a `<pre>` tag, and the sections are joined with
`<hr />`.

Files and modules:

| file | module | models |
|---|---|---|
| `common.dfy` | `Common` | `Option`, `Result`, Python exceptions, and a dict slot that is missing, null or given |
| `pytext.dfy` | `PyText` | the `str` operations the code uses: `lower`, `strip`, `capitalize`, `join`, `split`, `str(int)`, `<`, truthiness |
| `ordering.dfy` | `Ordering` | the total order of the compared values, sorted sequences, insertion points, `list.index`/`list.count` |
| `helpers.dfy` | `Helpers` | `binary_search`, `convert_to_list` |
| `api.dfy` | `Api` | `from_free_dictionary_api` and its inverse |
| `stored.dfy` | `Stored` | the dict a word is stored as, read by both `from_dict`s |
| `dictionary_types.dfy` | `DictionaryTypes` | english_dictionary/types.py |
| `legacy_types.dfy` | `LegacyTypes` | utils/types.py |
| `html.dfy` | `Html` | the page assembly both `to_html`s share, and `parse_etymology` |
| `formatter.dfy` | `Formatter` | `BaseAPIFormatter` |
| `legacy_formatter.dfy` | `LegacyFormatter` | `FormatWord` |
| `wiktionary.dfy` | `Wiktionary` | wiktionaryparser/utils.py |

How the code is modelled:

- The containers are Dafny classes. Each has a `list: seq<Item>` field that its
  methods reassign.
- Every method is tied to a function of the old list: `AppendResult`,
  `IndexResult`, `PopResult`, `RemoveResult`, `AppendAll` and `RemoveFirst`.
  The lemmas about those functions state the invariant each method keeps.
- Loops stay loops:
  - `bisect_left`, `binary_search`, the old `append` scan, the old `index`
    loop and `append_multiple`;
  - the formatters' `parse_*` loops.
- The wiktionary records are classes, because their list properties have
  setters that validate and assign.

## Model

| member | source | states |
|---|---|---|
| PyText.StrLtTotal | english_dictionary/types.py:235-236 | any two distinct names are ordered one way or the other by `<` on `str`, so words are totally ordered by name |
| PyText.StripIdempotent | english_dictionary/utils/formatter.py:9 | stripping a stripped etymology changes nothing |
| Ordering.InsertKeepsSorted | english_dictionary/types.py:32-33 | inserting at the insertion point keeps a sorted list sorted, and a strictly sorted one strictly sorted when the key is new |
| Ordering.RemoveKeepsSorted | english_dictionary/types.py:73-77 | removing any position keeps a (strictly) sorted list (strictly) sorted |
| Ordering.AllPositionsOfSorted | utils/types.py:63-71 | on a sorted list, the ascending list of every position holding a key is the block `range(first, first + count)`, which is what the current `index` returns |
| Ordering.BlockIsAllPositions | english_dictionary/types.py:62-64 | conversely, on a sorted list `range(first, first + count)` holds every position of the key and only those, ascending |
| Ordering.PositionsStep | utils/types.py:66-69 | each `list.index(item, start)` in the old `index` loop finds the next position holding the item, and one fewer copy remains after it |
| Helpers.BinarySearch | english_dictionary/utils/helpers.py:4-23 | an empty input gives -1; any other answer indexes an element equal to the target; on a sorted input -1 is returned exactly when the target is absent (utils/functions.py, lines 4-23, is the same function) |
| Helpers.ConvertToListEmpty | english_dictionary/utils/helpers.py:26-44 | no items give the empty string |
| Helpers.ConvertToListLines | english_dictionary/utils/helpers.py:39-44 | one line per item, numbered `\t{n}. {item}` from `start` upward, in order |
| Helpers.ConvertToListRoundTrip | utils/formatter.py:10-29 | the items read back from the numbered list, given the same start, when no item spans several lines |
| Api.NormalizeMeaning | english_dictionary/api.py:44-64 | a meaning keeps its part of speech and maps every definition in order; a missing `definitions` raises TypeError |
| Api.NormalizeMeanings | english_dictionary/api.py:44-66 | succeeds exactly when every meaning has definitions, one canonical meaning per raw meaning, in order |
| Api.NormalizeRecord | english_dictionary/api.py:39-67 | name, pronunciations and etymology are `word`, `phonetics` and `origin`; TypeError exactly when `meanings` or some meaning's `definitions` is missing |
| Api.FromFreeDictionaryApi | english_dictionary/api.py:38-69 | one entry per record, in order, or TypeError exactly when some record is incomplete |
| Api.FromApiWellFormed | english_dictionary/api.py:51-60 | every produced definition has exactly the groups "synonyms" then "antonyms" |
| Api.FromApiLossless | english_dictionary/api.py:38-69 | every entry reads back as the record it came from: nothing the builder reads is lost |
| Api.FromApiOfReadBack | english_dictionary/api.py:38-69 | conversely, every well-formed entry list is what the builder makes of its read-back records |
| Api.MissingGroupsGiveNone | english_dictionary/api.py:51-60 | a definition without `synonyms`/`antonyms` keys gets both groups with `words` None, and a record without `origin` gets etymology None |
| Stored.FirstDefinition | english_dictionary/types.py:195-198 | `definitions` missing raises KeyError, null TypeError, empty IndexError; a first definition without `related_words` raises KeyError; otherwise the first definition, with its first related-words dict exactly when there is one and it is truthy |
| DictionaryTypes.MakeWordData | english_dictionary/types.py:167-181 | the name is lower-cased, a None name raises AttributeError, a falsy etymology becomes "", the lists are kept |
| DictionaryTypes.WordComparisonsTotal | english_dictionary/types.py:235-239 | of any two words exactly one of `<`, `==`, `>` holds (`<` answered by the reflected `__gt__`) |
| DictionaryTypes.CaseInsensitiveEquality | english_dictionary/types.py:177 | names that differ only in case make equal words |
| DictionaryTypes.LeIsStrict | english_dictionary/types.py:232-233 | as written, `w <= w` is false |
| DictionaryTypes.LeIntendedIsNotGreater | english_dictionary/types.py:232-233 | the intended `<=` is reflexive and holds exactly when `>` does not |
| DictionaryTypes.FromApi | english_dictionary/types.py:186-188 | `WordData(**api[0])`: IndexError on no entries, AttributeError on a missing name, otherwise the first entry's lower-cased name, etymology, pronunciations and meanings |
| DictionaryTypes.WordFromRemoteRecords | english_dictionary/types.py:186-188 | from raw API records to a word: the first record's lower-cased word, origin, phonetics and normalised meanings |
| DictionaryTypes.FromDict | english_dictionary/types.py:190-218 | without truthy `data` only the name; otherwise the first group's etymology and exactly one definition, the first definition of the first group: its part of speech, texts and example uses, and its first related-words group only when that group is truthy |
| DictionaryTypes.FromDictOfStored | english_dictionary/types.py:190-218 | every word of the shape `from_dict` produces reads back unchanged from its stored dict |
| DictionaryTypes.AppendKeepsValid | english_dictionary/types.py:35-46 | `append` fails exactly on the type check with ValueError; otherwise the list stays sorted (strictly without duplicates) and holds the item; a present item changes nothing without duplicates; otherwise the multiset gains exactly the item |
| DictionaryTypes.IndexFindsAll | english_dictionary/types.py:51-64 | ValueError exactly when absent; without duplicates the one position holding the item; with duplicates every position holding it, ascending |
| DictionaryTypes.PopKeepsValid | english_dictionary/types.py:73-77 | `pop` succeeds exactly for `-len <= index < len`, otherwise IndexError; the returned element and the remaining list make up the old multiset, and the list stays valid |
| DictionaryTypes.RemoveExcises | english_dictionary/types.py:79-80 | without duplicates `remove` takes out exactly the matching element and leaves none equal to it; absent items raise ValueError |
| DictionaryTypes.RemoveWithDuplicatesFails | english_dictionary/types.py:79-80 | with duplicates `remove` always fails: ValueError when absent, TypeError (`pop` of a list) when present |
| DictionaryTypes.AppendAllKeepsValid | english_dictionary/types.py:66-68 | `append_multiple` keeps the list valid, loses no element, and when it passes every item is in the list; the only failure is ValueError |
| DictionaryTypes.OrderedList.constructor | english_dictionary/types.py:9-14 | an empty list with the given duplicates flag and element class |
| DictionaryTypes.OrderedList.BisectLeft | english_dictionary/types.py:16-30 | a negative upper bound means the length; on a sorted input the result splits the range into elements less than the item and elements not less; with default bounds it is the insertion point |
| DictionaryTypes.OrderedList.InsortLeft | english_dictionary/types.py:32-33 | the item is inserted at the insertion point |
| DictionaryTypes.OrderedList.Contains | english_dictionary/types.py:95-96 | true only for a present item, and exactly for present items on a sorted list |
| DictionaryTypes.OrderedList.Find | english_dictionary/types.py:48-49 | -1 or an index of an equal element; on a sorted list -1 exactly when absent |
| DictionaryTypes.OrderedList.Append | english_dictionary/types.py:35-46 | outcome and new list are those of `AppendResult`, and the list stays valid |
| DictionaryTypes.OrderedList.AppendMultiple | english_dictionary/types.py:66-68 | outcome and new list are those of `AppendAll`, and the list stays valid |
| DictionaryTypes.OrderedList.Index | english_dictionary/types.py:51-64 | the result is `IndexResult` of the list |
| DictionaryTypes.OrderedList.Pop | english_dictionary/types.py:73-77 | result and new list are those of `PopResult`, and the list stays valid |
| DictionaryTypes.OrderedList.Remove | english_dictionary/types.py:79-80 | outcome and new list are those of `RemoveResult`, and the list stays valid |
| DictionaryTypes.OrderedList.Clear | english_dictionary/types.py:82-84 | the list is empty |
| DictionaryTypes.WordDetailsOfAbsentName | english_dictionary/types.py:253-254 | for every list: a stored name gives the word of that name, as the intended lookup does; an absent name gives the last word, or IndexError on an empty list, where the intended lookup gives ValueError |
| DictionaryTypes.WordDetailsZebraIsKing | english_dictionary/types.py:253-254 | as written, asking a dictionary of "ape" and "king" for "zebra" returns "king" |
| DictionaryTypes.LookUpFindsName | english_dictionary/types.py:253-254 | the intended lookup succeeds exactly for a stored name and returns that word; otherwise ValueError |
| DictionaryTypes.Dictionary.constructor | english_dictionary/types.py:242-244 | an empty list of `WordData` without duplicates |
| DictionaryTypes.Dictionary.Peek | english_dictionary/types.py:246-247 | one name per word, in order; in a valid dictionary the names ascend strictly and are the keys the list is ordered by |
| DictionaryTypes.Dictionary.EditWord | english_dictionary/types.py:249-251 | `remove(old)` then `append(new)`; a failed remove changes nothing |
| DictionaryTypes.Dictionary.GetWordDetails | english_dictionary/types.py:253-254 | the code as written: the binary search over the names gives the result of `WordDetails` (IndexError only on an empty dictionary), and the word returned has the name asked for exactly when that name is stored |
| LegacyTypes.MakeRelatedWord | utils/types.py:111-120 | a falsy relationship type becomes "", falsy words become [] |
| LegacyTypes.MakePronunciation | utils/types.py:129-138 | only None becomes []; a given empty list is kept |
| LegacyTypes.MakeWordData | utils/types.py:179-192 | the name is lower-cased (AttributeError for None), a falsy etymology becomes "", the lists are kept |
| LegacyTypes.RelatedWordsHtml | utils/types.py:122-123 | one `Type: word, word` line per related word, in order |
| LegacyTypes.DefinitionHtml | utils/types.py:162-173 | TypeError exactly when the texts are None |
| LegacyTypes.DefinitionSectionsAppend | utils/types.py:162-173 | the header and numbered texts come first; the examples and related-words sections only append, and the html is exactly the header and texts when neither is present |
| LegacyTypes.DefinitionTextsReadBack | utils/types.py:162-166 | the definition texts read back from the html after the header |
| LegacyTypes.FromDict | utils/types.py:197-223 | None `data` raises TypeError and [] IndexError; otherwise the lower-cased name, the first group's etymology and exactly one definition, the first definition of the first group: its part of speech, texts and example uses, and its first related-words group only when that group is truthy |
| LegacyTypes.FromDictOfStored | utils/types.py:197-223 | every word of the shape `from_dict` produces reads back unchanged from its stored dict |
| LegacyTypes.AppendKeepsValid | utils/types.py:13-29 | the linear-scan `append` fails exactly on the type check; otherwise the list stays sorted (strictly without duplicates) and holds the item; the multiset gains exactly the item unless it was a refused duplicate |
| LegacyTypes.AppendAllKeepsValid | utils/types.py:73-75 | `append_multiple` keeps the list valid, loses no element, and when it passes every item is in the list |
| LegacyTypes.RemoveFirstKeepsValid | utils/types.py:366-367 | `list.remove` fails with ValueError exactly when absent; otherwise it removes one equal element, keeps the list valid, and without duplicates none equal remains |
| LegacyTypes.OrderedList.constructor | utils/types.py:6-11 | an empty list with the given duplicates flag and element class |
| LegacyTypes.OrderedList.Append | utils/types.py:13-29 | outcome and list are those of `AppendResult`, and the list stays valid |
| LegacyTypes.OrderedList.ScanPosition | utils/types.py:23-29 | the `for` loop stops at the first element the item is not greater than, or at the end: the insertion point `InsertionPoint` of the item |
| LegacyTypes.OrderedList.AppendMultiple | utils/types.py:73-75 | outcome and new list are those of `AppendAll` |
| LegacyTypes.OrderedList.Find | utils/types.py:31-50 | -1 on an empty list; otherwise -1 or an index of an equal element; on a sorted list -1 exactly when absent |
| LegacyTypes.OrderedList.Index | utils/types.py:52-71 | ValueError exactly when absent; the first position without duplicates; with duplicates every position holding the item, ascending, on any list |
| LegacyTypes.OrderedList.CollectPositions | utils/types.py:63-71 | the loop of `count` searches, each starting after the last find, collects every position of the key in ascending order |
| LegacyTypes.OrderedList.Pop | utils/types.py:80-86 | IndexError on an empty list or an index outside it; otherwise the element at the (possibly negative) index is removed and returned; the list stays valid |
| LegacyTypes.OrderedList.Clear | utils/types.py:88-90 | the list is empty |
| LegacyTypes.Dictionary.constructor | utils/types.py:359-361 | an empty list of `WordData` without duplicates |
| LegacyTypes.Dictionary.Peek | utils/types.py:363-364 | the names in stored order, which in a valid dictionary are the ordering keys |
| LegacyTypes.Dictionary.RemoveWord | utils/types.py:366-367 | outcome and new list are those of `RemoveFirst`, and the dictionary stays valid |
| LegacyTypes.Dictionary.EditWord | utils/types.py:369-371 | `remove_word(old)` then `append(new)`; a missing old word raises ValueError and changes nothing |
| LegacyTypes.Dictionary.FindWord | utils/types.py:373-374 | -1 exactly when the name is not stored; otherwise the position of that name |
| LegacyTypes.Dictionary.GetWordDetails | utils/types.py:376-377 | ValueError exactly when the name is not stored; otherwise a stored word with that name |
| Html.EtymologyHtml | english_dictionary/utils/formatter.py:8-9 | the label, then the etymology stripped of surrounding whitespace, a slice of it; a stripped etymology appears unchanged (utils/formatter.py, lines 31-33, renders it the same way) |
| Html.PageEmpty | english_dictionary/utils/formatter.py:35-40 | the page is "" exactly when there is no section; otherwise it opens with the first section, wrapped in `<pre ...>` |
| Html.PageAppend | english_dictionary/utils/formatter.py:35-40 | one more section adds `<hr />` and that section, wrapped, at the end |
| Formatter.BaseApiFormatter.ParsePronunciations | english_dictionary/utils/formatter.py:11-13 | only the first pronunciation is rendered; None raises TypeError; no pronunciation gives None |
| Formatter.BaseApiFormatter.ParseMeanings | english_dictionary/utils/formatter.py:15-21 | the renderings of the meanings, in order, joined with `<hr />`; None raises TypeError |
| Formatter.BaseApiFormatter.MeaningsJoined | english_dictionary/utils/formatter.py:15-21 | no meanings give "", one gives its rendering, and each further meaning follows a rule |
| Formatter.BaseApiFormatter.ToHtml | english_dictionary/utils/formatter.py:23-40 | the page of the collected sections |
| Formatter.BaseApiFormatter.SectionsPresent | english_dictionary/utils/formatter.py:23-34 | one section per truthy field, in the order etymology, pronunciations, meanings; the first is the etymology when there is one, the last the joined meanings when there are some |
| Formatter.BaseApiFormatter.PageEmptyWhenNothing | english_dictionary/utils/formatter.py:23-40 | the page is "" exactly when etymology, pronunciations and meanings are all falsy |
| LegacyFormatter.FormatWord.ParsePronunciations | utils/formatter.py:35-38 | only the first pronunciation, as its numbered texts; None raises TypeError; no pronunciation gives None |
| LegacyFormatter.FormatWord.ParseRelatedWords | utils/formatter.py:40-47 | one line per related word, in order; None raises TypeError |
| LegacyFormatter.FormatWord.ParseDefinitions | utils/formatter.py:49-56 | one section per definition, in order; TypeError exactly when the list is None or some definition has no texts |
| LegacyFormatter.FormatWord.ToHtml | utils/formatter.py:58-76 | TypeError exactly when the sections fail; otherwise the page of the collected sections |
| LegacyFormatter.HeadPresent | utils/formatter.py:62-66 | the etymology section, then the pronunciations section, each only when its field is truthy |
| LegacyFormatter.SectionsPresent | utils/formatter.py:58-69 | a definition without texts makes the page fail; otherwise the leading sections, then one section per definition, in order |
| LegacyFormatter.PageEmptyWhenNothing | utils/formatter.py:71-76 | the page is "" exactly when etymology, pronunciations and definitions are all falsy |
| Wiktionary.SetList | wiktionaryparser/utils.py:23-34 | None gives [], a list is kept, anything else raises TypeError |
| Wiktionary.MakeRelatedWord | wiktionaryparser/utils.py:51-53 | a falsy type becomes "", falsy words become [] |
| Wiktionary.RelatedWordJson | wiktionaryparser/utils.py:55-56 | exactly the keys "relationship_type" and "words" |
| Wiktionary.RelatedWordRoundTrip | wiktionaryparser/utils.py:55-56 | a related word reads back from its JSON |
| Wiktionary.MakePronunciation | wiktionaryparser/utils.py:62-67 | only None becomes []; a given empty list is kept |
| Wiktionary.DefinitionJson | wiktionaryparser/utils.py:36-44 | exactly the keys "part_of_speech", "texts", "related_words", "example_uses" |
| Wiktionary.DefinitionRoundTrip | wiktionaryparser/utils.py:36-44 | a definition, with its related words in order, reads back from its JSON |
| Wiktionary.WordJson | wiktionaryparser/utils.py:105-112 | the definitions in order, and pronunciations and audio links packed under "pronunciations" as "text" and "audio" |
| Wiktionary.WordRoundTrip | wiktionaryparser/utils.py:105-112 | a word, with its definitions in order, reads back from its JSON |
| Wiktionary.Definition.ToJson | wiktionaryparser/utils.py:36-44 | the JSON reads back as the definition's current fields |
| Wiktionary.Definition.SetRelatedWords | wiktionaryparser/utils.py:23-34 | None stores [], a list is stored, anything else raises TypeError and changes nothing; other fields untouched |
| Wiktionary.Definition.Create | wiktionaryparser/utils.py:4-17 | falsy arguments become "" or []; a truthy non-list `related_words` raises TypeError |
| Wiktionary.WordData.Fields | wiktionaryparser/utils.py:105-112 | one definition state per definition object, in order |
| Wiktionary.WordData.ToJson | wiktionaryparser/utils.py:105-112 | the JSON reads back as the word's current fields and its definitions' fields |
| Wiktionary.WordData.SetDefinitionList | wiktionaryparser/utils.py:92-103 | None stores [], a list is stored, anything else raises TypeError and changes nothing |
| Wiktionary.WordData.Create | wiktionaryparser/utils.py:74-86 | falsy etymology, pronunciations and audio links become "" or []; the definitions go to the setter as given, so any non-list raises TypeError |

## Left out

- Strings: `lower`, `strip`, `capitalize` and `isspace` are modelled for ASCII only. Unicode case mapping and Unicode whitespace are not modelled.
- Comparisons between values of different Python types are not modelled. The element-class check runs before any comparison, so a valid list never mixes them.
- `OrderedList.peek` returns the internal list itself, so a caller can mutate it. The model reads the `list` field instead and does not model that aliasing.
- `__str__`, `__repr__`, `__len__` and `__getitem__` (the last is broken: `getattr` with one argument) are left out.
- The GUI, the sqlite store, the HTTP client `FreeDictionaryApi` and the `__main__` block of utils/formatter.py are left out. So are the records' `to_html` in english_dictionary/types.py, which import a `FormatWord` that english_dictionary/utils/formatter.py does not define.
- The word class `BaseAPIFormatter` formats, and the `to_html` of its meanings and pronunciations, come from `english_dictionary.core`, which is not part of this model. The formatter sees the word through its three fields, and the two renderers are parameters. The etymology is taken to be a string.
- `FormatWord` is annotated with the wiktionaryparser classes, but those have no `to_html`. It is modelled on the records of utils/types.py, whose `to_html` it calls and which call it.
- Wiktionary `WordData.pronunciations` is annotated as a dict but defaults to a list; it is modelled as a list of strings. A `Definition` given no texts stores `""`, which is modelled as the empty list and written to JSON as `""`.
- `isinstance` checks, keyword splatting and arbitrary objects: an element's class is a tag; an argument that is neither None nor a list is `OtherArg`, of which only its truthiness is kept.
- A dict's truthiness is approximated by `Stored.NonEmpty`: a related-words dict is falsy only when it has neither of its two keys. Keys the code does not read are not modelled.
- DictionaryTypes.OrderedList.BisectLeft: requires a non-negative lower bound and an upper bound no larger than the length. Other bounds make Python index out of range or wrap around, and no caller passes them.
- LegacyTypes.WordData comparisons: `__le__`, `__gt__` and `__eq__` (utils/types.py:349-356) are the same as in the current revision. Their properties are stated once, in DictionaryTypes.

## Findings

| source | as written | input that shows it | evidently intended | confidence | as-written member | corrected member |
|---|---|---|---|---|---|---|
| english_dictionary/types.py:232-233 | `__le__` returns `self._name < other.get_name()`, a strict comparison | any word `w`: `w <= w` is False | `<=` true for equal names, i.e. "not greater" | high, not executed | DictionaryTypes.LeIsStrict | DictionaryTypes.LeIntendedIsNotGreater |
| english_dictionary/types.py:253-254 | `self._list[binary_search(self.peek(), word)]` indexes with -1 when the name is absent | words "ape" and "king", asking for "zebra" returns "king" | an error for an absent name, as the old revision's `peek().index(word)` raises ValueError | high, not executed | DictionaryTypes.WordDetailsZebraIsKing | DictionaryTypes.LookUpFindsName |
