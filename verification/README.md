# NoSeedOils filters in Dafny

NoSeedOils narrows a large dump of branded food products down to the
products worth a closer look, in two stages:

1. `filter_foods.py` streams the product records, skips those without
   ingredient text, rejects those whose ingredient text mentions a
   denylisted oil or additive (a case-insensitive search for whole phrases
   between word boundaries), flattens the rest and writes them as CSV rows
   under a header fixed by the first record written.
2. `post_filter_brands.py` reads that CSV back and keeps the rows whose
   `brandOwner`, with surrounding white space stripped, is exactly one of
   41 retailer brand-owner names, writing them unchanged under the input
   header.

The model consists of these modules:

- `Wrappers` (`wrappers.dfy`): `Option`.
- `Ascii` (`ascii.dfy`): word characters, case folding, and `str.strip()`
  (`Strip`, built from `StripStart` and `StripEnd`), together with their
  properties.
- `Dicts` (`dicts.dfy`): Python dictionaries as insertion-ordered sequences
  of `(key, value)` pairs, so the order of `keys()`, and with it the CSV
  header, is observable. It provides `d.get`, `d[k] = v` and the row
  `csv.DictWriter` writes for a dictionary (`Project`).
- `IngredientFilter` (`filter_foods.dfy`): the denylist search, record
  flattening and the first script's main loop.
- `BrandFilter` (`post_filter_brands.dfy`): the allowlist and the second
  script's main loop.

Each script's main loop is a method with a `for` loop. Its out-parameters
are the two counters and the writer. `None` means no writer has been
created yet. `Some(Sheet(header, rows))` is the header written and the
rows written after it. The loop invariants tie these to a specification
function of the records read so far (`Kept`/`Written`, `KeptRows`/`Written`).
Lemmas state what those functions mean without the loop.

The regular expression search becomes two things. `HasUnwantedOil` is a
ghost predicate: some phrase matches, ignoring case, at some position with
a word boundary on both sides. `ContainsUnwantedOils` is a scanning method
proved to agree with it. The scanner returns the match `re.search`
returns: the leftmost position, and there the first alternative in pattern
order.

`process_item` is a loop that assigns key by key into a fresh dictionary.
Its result keeps the record's keys in order. Lists and objects become
`Json(v)`, standing for `json.dumps(v)`. Decimals become `Float(literal)`,
standing for `float(Decimal(literal))`. Every other value is kept as it is.

The comment at `post_filter_brands.py:54` speaks of normalising case, but
the code does not: matching against the allowlist is case-sensitive. The
model follows the code, and `LowerKrogerNotKept` and
`LowerCaseOwnerNeverKept` state the consequence.

## Model

| member | source | states |
|---|---|---|
| IngredientFilter.ContainsUnwantedOils | filter_foods.py:14-16 | the search finds a match exactly when some denylist phrase occurs, ignoring case, between word boundaries; a match found is the leftmost one and, at its position, the first alternative in pattern order |
| IngredientFilter.FirstPhraseAt | filter_foods.py:15-16 | at one position the alternatives are tried in pattern order: the first phrase that matches there is returned, and none is returned exactly when no phrase matches there |
| IngredientFilter.PhraseAt | filter_foods.py:15-16 | one alternative at one position succeeds exactly when both word boundaries hold and the characters agree ignoring case |
| IngredientFilter.EqualIgnoringCaseAt | filter_foods.py:16 | the character-by-character comparison under `re.IGNORECASE` succeeds exactly when every character agrees up to ASCII case |
| IngredientFilter.CaseVariantsMatchAlike | filter_foods.py:15-16 | two texts differing only in letter case match the same phrase at the same positions, because case changes keep word characters as word characters |
| IngredientFilter.MatchIgnoresCase | filter_foods.py:16 | upper- or lower-casing the ingredient text does not change whether the search succeeds |
| IngredientFilter.CaseExamples | filter_foods.py:16 | "CANOLA OIL" and "canola oil" both match |
| IngredientFilter.PhrasesAreWords | filter_foods.py:15 | every phrase of the pattern is at least 8 characters long and begins and ends with a word character |
| IngredientFilter.NoMatchInsideWord | filter_foods.py:15 | a phrase starting right after a word character (inside a longer word) never matches there |
| IngredientFilter.NoMatchIntoWord | filter_foods.py:15 | a phrase followed directly by a word character never matches there |
| IngredientFilter.WordBoundaryExamples | filter_foods.py:15 | "CORN OIL" does not match inside "POPCORN OIL"; "CANOLA OIL" between commas in "SALT, CANOLA OIL, WATER" does |
| IngredientFilter.PhraseInitials | filter_foods.py:15 | every phrase starts with one of C, F, G, H, N, O, P, S, V, and those starting with P continue with A |
| IngredientFilter.CleanTextExamples | filter_foods.py:14-16 | "WATER, SALT" and "POPCORN OIL" have no match anywhere |
| IngredientFilter.OilyTextMatches | filter_foods.py:14-16 | "WATER, CANOLA OIL, SALT" matches |
| IngredientFilter.ProcessValue | filter_foods.py:28-35 | a value is copied unchanged exactly when it is neither a list, an object nor a decimal; those three are converted, and no value becomes a blank cell |
| IngredientFilter.Processed | filter_foods.py:25-36 | the processed record has the input record's keys, in the same order |
| IngredientFilter.ProcessItem | filter_foods.py:25-36 | the key-by-key loop builds the processed record: the input's keys in order, each holding its value processed |
| IngredientFilter.LookupProcessed | filter_foods.py:25-36 | looking a key up in the processed record gives the processed value of that key in the input, and nothing for a key the input lacks |
| IngredientFilter.FilterFoods | filter_foods.py:42-62 | the loop counts every record; counts exactly the records written, which are no more than the records read; and writes exactly `Written(items)`: a header and rows exactly when some record is written, with one row per record written |
| IngredientFilter.Kept | filter_foods.py:47-62 | the records written are never more than the records read |
| IngredientFilter.WrittenAppend | filter_foods.py:55-62 | a passing record adds one row, projected onto the header already fixed (or onto its own keys if it is the first) |
| IngredientFilter.KeptAppend | filter_foods.py:47-62 | the records written for a concatenation are those written for each part, in order |
| IngredientFilter.KeptMembers | filter_foods.py:47-62 | a record is written exactly when it is one of the input records and has non-blank string ingredients with no denylist match |
| IngredientFilter.SkippedRecordLeavesNoTrace | filter_foods.py:50-52 | a record whose ingredients are missing, not a string or blank changes neither the written output nor the count of records written |
| IngredientFilter.RejectedRecordLeavesNoTrace | filter_foods.py:54 | a record whose ingredient text matches the denylist changes neither the written output nor the count of records written |
| IngredientFilter.HeaderIsFirstPassingKeys | filter_foods.py:56-59 | the header is written, and it is the key sequence of the first record that passes |
| IngredientFilter.KeptNone | filter_foods.py:47-62 | when no record passes, no record is written |
| IngredientFilter.NothingWrittenIffNonePasses | filter_foods.py:56-59 | nothing at all (not even a header) is written exactly when no record passes |
| IngredientFilter.RowCell | filter_foods.py:58-62 | each written cell is the processed value of that header key in its record, or blank when the record lacks the key; keys outside the header appear nowhere |
| IngredientFilter.FirstRowIsWholeRecord | filter_foods.py:57-62 | the first row written holds every processed value of the first written record, in order, with no blank cell |
| IngredientFilter.OilyProductRejected | filter_foods.py:50-54 | a product whose ingredients mention canola oil does not pass |
| IngredientFilter.CleanProductPasses | filter_foods.py:50-54 | a product with ingredients "WATER, SALT" passes |
| IngredientFilter.ExampleProductText | filter_foods.py:50-51 | the example products have non-blank string ingredient text |
| IngredientFilter.FirstOfThreeRejected | filter_foods.py:47-62 | of three records of which only the first fails, the other two are written, under the second's keys |
| IngredientFilter.ThreeProductExample | filter_foods.py:47-62 | three products where the first has canola oil: the other two are written, under the header "ingredients", "brandOwner" |
| BrandFilter.SetIsList | post_filter_brands.py:10-55 | a name is in the set exactly when it occurs in the list |
| BrandFilter.ListedNameInitial | post_filter_brands.py:10-52 | every listed name is non-empty and starts with a capital letter or a digit |
| BrandFilter.ListedNameFinal | post_filter_brands.py:10-52 | no listed name ends in white space |
| BrandFilter.ListedSuffixPlain | post_filter_brands.py:10-52 | every name of the list is trimmed and starts with a capital letter or a digit |
| BrandFilter.ListedNameInSet | post_filter_brands.py:10-55 | every name of the set is trimmed and starts with a capital letter or a digit |
| BrandFilter.BrandOwnerSetTrimmed | post_filter_brands.py:10-55 | every name of the set is non-empty with no surrounding white space |
| BrandFilter.KeepIffPaddedName | post_filter_brands.py:69-71 | against any allowlist of trimmed names, a row is kept exactly when its brand owner is an allowed name with nothing but white space around it |
| BrandFilter.KeepIffPaddedListedName | post_filter_brands.py:69-71 | a row is kept exactly when its brand owner, as read, is a listed name padded with white space |
| BrandFilter.MissingOwnerIsEmpty | post_filter_brands.py:69 | a row without a `brandOwner` field reads as the empty text |
| BrandFilter.BlankOwnerNeverKept | post_filter_brands.py:69-71 | a row whose brand owner is missing or blank is never kept |
| BrandFilter.LowerCaseOwnerNeverKept | post_filter_brands.py:54-71 | a brand owner that starts with a lower-case letter once stripped is never kept: no case normalisation takes place |
| BrandFilter.OwnerOfTwoFieldRow | post_filter_brands.py:69 | the brand owner read from a row with an ingredients field and a brand owner field is the latter, stripped |
| BrandFilter.KrogerKept | post_filter_brands.py:69-71 | a row with brand owner "KROGER" is kept |
| BrandFilter.PaddedKrogerKept | post_filter_brands.py:69-71 | a row with brand owner " KROGER " is kept |
| BrandFilter.LowerKrogerNotKept | post_filter_brands.py:54-71 | a row with brand owner "kroger" is not kept |
| BrandFilter.KeptRows | post_filter_brands.py:67-78 | the rows kept are never more than the rows read |
| BrandFilter.Cells | post_filter_brands.py:78 | one written row per kept row |
| BrandFilter.FilterRows | post_filter_brands.py:64-78 | the loop counts every row; counts exactly the rows kept by the given allowlist, which are no more than the rows read; and writes exactly `Written`: nothing if no row is kept, else the input header and the kept rows in order |
| BrandFilter.FilterBrands | post_filter_brands.py:55-78 | the script's loop with the listed names as allowlist: the counts and output above, and a writer exists exactly when some row is kept, holding the input header and one row per kept row |
| BrandFilter.WrittenAppend | post_filter_brands.py:72-78 | a kept row adds one written row under the input header |
| BrandFilter.KeptAppend | post_filter_brands.py:67-78 | the rows kept for a concatenation are those kept for each part, in order |
| BrandFilter.KeptMembers | post_filter_brands.py:67-78 | a row is written exactly when it is one of the input rows and its stripped brand owner is allowed |
| BrandFilter.HeaderIsInputHeader | post_filter_brands.py:73-77 | a header is written exactly when some row is kept, and it is the input header verbatim |
| BrandFilter.KeptRowUnchanged | post_filter_brands.py:78 | a kept row whose keys are the input header is written unchanged: its own values in order, with the brand owner as read, not stripped |
| BrandFilter.SevenLongIsWalmart | post_filter_brands.py:10-52 | every listed name of seven characters starts with W |
| BrandFilter.AcmeNotListed | post_filter_brands.py:10-55 | "Acme Co", capitalised and trimmed, is not in the set |
| BrandFilter.TwoRowExample | post_filter_brands.py:67-78 | of a "KROGER" row and an "Acme Co" row, only the first is kept |
| BrandFilter.CaseSpellingRowExample | post_filter_brands.py:54-78 | of a "KROGER" row and a "kroger" row, only the first is kept |
| Ascii.Lower | filter_foods.py:16 | ASCII case folding: each capital maps to the small letter at the same place in the alphabet, and nothing else changes |
| Ascii.Upper | filter_foods.py:16 | ASCII case folding: each small letter maps to the capital at the same place in the alphabet, and nothing else changes |
| Ascii.CaseChangeKeepsClass | filter_foods.py:15-16 | changing case does not change whether a character is a word character |
| Ascii.SameIgnoringCaseKeepsClass | filter_foods.py:15-16 | characters equal up to case are both word characters or both not |
| Ascii.UpperText | filter_foods.py:16 | upper-casing keeps the length and changes each character only in case |
| Ascii.LowerText | filter_foods.py:16 | lower-casing keeps the length and changes each character only in case |
| Ascii.StripStartSpec | post_filter_brands.py:69 | the left strip keeps a suffix, removes only white space, and leaves no leading white space |
| Ascii.StripEndSpec | post_filter_brands.py:69 | the right strip keeps a prefix, removes only white space, and leaves no trailing white space |
| Ascii.StripSpec | post_filter_brands.py:69 | the stripped text is no longer than the input, and starts and ends with something other than white space |
| Ascii.StripIsTrim | filter_foods.py:51 | the stripped text is a contiguous slice of the input with only white space on either side |
| Ascii.StripEmptyIffBlank | filter_foods.py:51 | the stripped text is empty exactly when the input is all white space |
| Ascii.StripIdempotent | post_filter_brands.py:69 | stripping twice is stripping once |
| Ascii.StripOfTrimmed | post_filter_brands.py:69 | a text with no surrounding white space is its own strip |
| Ascii.StripPadded | post_filter_brands.py:69 | white space added on both sides of a trimmed text disappears under strip |
| Ascii.StripInIffPadded | post_filter_brands.py:69-71 | against trimmed names, the stripped text is one of them exactly when the input is one of them padded with white space |
| Ascii.StripStartPadded | post_filter_brands.py:69 | leading white space before a text that starts with something else is removed exactly |
| Ascii.StripEndPadded | post_filter_brands.py:69 | trailing white space after a text that ends with something else is removed exactly |
| Dicts.LookupFindsKeys | filter_foods.py:50 | a lookup fails exactly when the key is absent, which is when `get` returns its default |
| Dicts.LookupEntry | filter_foods.py:62 | in a dictionary with distinct keys, looking up an entry's key gives that entry's value |
| Dicts.Put | filter_foods.py:30-35 | assigning a key keeps the key order, appends a new key at the end, and the key then holds the assigned value |
| Dicts.PutKeepsOthers | filter_foods.py:30-35 | assigning one key leaves every other key's value as it was |
| Dicts.PutNewKeyAppends | filter_foods.py:30-35 | assigning a key not yet present appends the pair |
| Dicts.Project | filter_foods.py:62 | a written row has one cell per header field |
| Dicts.ProjectOwnKeys | post_filter_brands.py:76-78 | a dictionary written under its own keys is written as its values, in order |
| Dicts.ProjectMissingKey | filter_foods.py:58-62 | a header field the dictionary lacks is written as the blank cell |
| Dicts.ProjectIgnoresExtraKeys | filter_foods.py:58-62 | only the header keys matter: dictionaries that agree on them are written as the same row |

## Left out

- File paths, opening and closing files, and the home directory (`filter_foods.py:9-11, 39-40`, `post_filter_brands.py:5-7, 58-59`): this is I/O. The records read are a parameter of each loop method.
- Streaming JSON parsing with `ijson.items(..., 'BrandedFoods.item')` (`filter_foods.py:43`): it is a foreign library. The model takes the records it yields as a sequence of `Value` dictionaries.
- CSV quoting, escaping and line endings of `csv.DictWriter` and `csv.DictReader`: the model stops at the header and the cell values of each row.
- `json.dumps` with `decimal_default`, and `float(Decimal)` (`filter_foods.py:19-22, 30, 33`): these are foreign serialisation and floating point. Such values become the symbolic cells `Json(v)` and `Float(literal)`. The model records that they are converted, not what text they turn into.
- Progress and summary printing (`filter_foods.py:64-69`, `post_filter_brands.py:80-81`): these are output side effects. Because of the `continue` at `filter_foods.py:52`, a 10,000th record with blank ingredients prints no progress line. The model does not capture this.
- Unicode: Python's `\b`, `re.IGNORECASE` and `str.strip()` are Unicode-aware. The model uses ASCII only:
  - word characters are letters, digits and `_`;
  - case folding covers only A-Z;
  - white space is the ASCII part of `str.isspace()` (codes 9-13 and 28-32).
- `csv.DictReader` fills the missing trailing fields of a short row with `None`. The `.strip()` at `post_filter_brands.py:69` then raises only when `brandOwner` is one of those missing fields. A short row that still reaches the `brandOwner` column is filtered like any other, and if kept it is written with its missing cells blank. A long row files its extra fields under the key `None`, which the default `extrasaction='raise'` of the writer at `post_filter_brands.py:76` rejects. Rows are modelled as dictionaries of text with neither `None` cells nor a `None` key, so neither the exception nor the blank cells are modelled.
- The loop method `FilterRows` takes the allowlist as a parameter, where the script uses its one constant set. `FilterBrands` passes that set, so the script's behaviour is fully stated. The loop's own contract holds for any allowlist.
- `re.search` returns a match object. The model returns the start position and the index of the alternative, not the object, and no caller uses more than its truth value.
