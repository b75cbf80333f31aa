# Dagda vulnerability database composer

Dagda's `DBComposer` (dagda/vulnDB/db_composer.py) builds the vulnerability database in
three steps. First it clears the CVE, bugtraq (BID) and Exploit-DB collections. Then it
fills each one from a public feed:

- the NVD CVE feeds of the years 2002 to 2016;
- the Exploit-DB CSV file;
- a gzipped file of bugtraq JSON lines.

Every record becomes zero or more `id#product#version` keys. The CVE feed collects the keys
of one year in a set, which removes duplicates, and bulk-inserts that set with one call,
whatever its size and even when it is empty. The Exploit-DB and bugtraq feeds each collect
their keys in one set: it is bulk-inserted and cleared whenever it holds more than 8000
keys after a record, and whatever remains at the end is inserted if it is not empty.

This project models that logic in Dafny, in six files:

- `wrappers.dfy`: an `Option` type.
- `py_text.dfy`: the Python string operations the composer relies on: `split` on one
  character, `strip`, `lstrip` and `rstrip`, `lower`, `find`/`index`, and slicing with
  clamped and negative bounds.
- `version_patterns.dfy`: hand-written scanners for the two regular expressions.
  `SearchDelimited` is the leftmost `re.search` of `[\s\-]([0-9]+(\.[0-9]+)*)`.
  `FindAllDotted` is the `re.finditer` of `([0-9]+(\.[0-9]+)+)`: greedy matches that do not
  overlap, each search resuming at the end of the previous match.
- `feed_records.dfy`: the per-record rules for a CVE product identifier, an Exploit-DB
  CSV row and a bugtraq product string, as pure functions.
- `batching.dfy`: the dedup-and-flush cycle as a pure left fold (`Feed`, `Batches`) over
  the key groups of the records.
- `db_composer.dfy`: the class `DBComposer`. Its field `driverCalls` is the sequence of
  calls made on the database driver: collection deletes and bulk inserts. Its methods are
  imperative loops over a mutable set of keys, each proved equal to a recursive
  definition: the two batched feed loops to `Batches` over `ExploitGroups` and
  `BidGroups`, the NVD loop of `GetCveListFromFile` to `CveKeys`, and the year loop of
  `ComposeVulnDb` to `YearKeys`. This file also defines what the collections hold
  after a composition.

The decoders are not modelled; their decoded results are parameters:

- A CVE entry is its `id` attribute and the texts of its product elements.
- A bugtraq line is either `Malformed` or a record of id and products. `Malformed` covers
  undecodable bytes, invalid JSON, a missing `bugtraq_id` or `vuln_products`, and a
  `vuln_products` that cannot be iterated. Each product is either a string or "not a
  string"; `re.search` raises on the latter.
- The Exploit-DB file is its decoded text.

Two points where the code differs from what one might expect are modelled as the code is
written:

1. The Exploit-DB description is cut at its first hyphen *before* versions are searched.
   So `apache httpd - 2.4.1 mod_ssl` gives no key at all, and `Apache 2.4.1 - DoS` gives
   `apache`/`2.4.1`.
2. Neither the Exploit-DB path nor the bugtraq path checks that the product is non-empty.
   A description starting with its version gives an empty product, for example. The
   Exploit-DB id is not checked either: the row `,x,'a 1.0 - b',x` gives the key
   `#a#1.0`, although every document is meant to carry a non-empty source id. No
   contract here claims a non-empty product or id.

In the bugtraq rule the product is `s[:s.index(version) - 1]`. Python's `index` finds the
first occurrence of the version text anywhere in the string, which can come before the
match. The model keeps that `index`-based slice, including the slice to `[:-1]` when the
version occurs at position 0. `BidKeyAtMatch` proves `index` never fails and the bound is
never below -1. `BidProductBeforeMatch` gives the product when the first occurrence is the
match itself. `EarlyCopyKey` shows the other case: `Foo1.0 1.0` with id `7` gives
`7#fo#1.0`, because `index` finds the `1.0` at position 3.

In the Exploit-DB rule, `ExploitFirstMatchIndex` proves that `index` of the first match's
text is always that match's own start.

## Model

| member | source | states |
|---|---|---|
| PyText.Lower | dagda/vulnDB/db_composer.py:75 | `lower()`: the same length; no ASCII capital is left; each capital becomes the letter 32 code points on, and every other character is kept at its position |
| PyText.LowerChar | dagda/vulnDB/db_composer.py:100 | a capital `A`-`Z` becomes its small letter, 32 code points on; any other character is kept; the result is never a capital |
| PyText.LStrip | dagda/vulnDB/db_composer.py:70 | `lstrip()`: a suffix of the input; everything dropped is white space; the result does not start with white space |
| PyText.RStrip | dagda/vulnDB/db_composer.py:70 | `rstrip()`: a prefix of the input; everything dropped is white space; the result does not end with white space |
| PyText.Strip | dagda/vulnDB/db_composer.py:100 | `.lstrip().rstrip()`: the result is the infix of the input that starts where `lstrip`'s result starts; everything before it and after it is white space; it neither starts nor ends with white space |
| PyText.StripOrder | dagda/vulnDB/db_composer.py:70 | `rstrip().lstrip()` equals `lstrip().rstrip()`, so both orders used in the file compute the same text |
| PyText.RStripCons | dagda/vulnDB/db_composer.py:70 | `rstrip` of a character followed by text, in terms of `rstrip` of the text |
| PyText.LStripNonSpaceHead | dagda/vulnDB/db_composer.py:70 | a text starting with a non-space is left alone by `lstrip`, before and after `rstrip` |
| PyText.LStripSpaceHead | dagda/vulnDB/db_composer.py:70 | proof helper: `lstrip` drops a leading space character |
| PyText.StripTrimmed | dagda/vulnDB/db_composer.py:70 | stripping a text with no white space at either end changes nothing |
| PyText.StripLeadingSpace | dagda/vulnDB/db_composer.py:70 | stripping ignores one leading white space character |
| PyText.CharIndex | dagda/vulnDB/db_composer.py:99-100 | `description.index('-')` when `'-' in description`: a position holding `-` with no `-` before it |
| PyText.Split | dagda/vulnDB/db_composer.py:95 | `str.split(sep)`: at least one field, no field holds the separator, and joining the fields with it gives the input back |
| PyText.SplitJoin | dagda/vulnDB/db_composer.py:137 | splitting separator-free fields joined by the separator gives exactly those fields |
| PyText.FindFrom | dagda/vulnDB/db_composer.py:74 | the first occurrence at or after a position, or -1 when there is none |
| PyText.Find | dagda/vulnDB/db_composer.py:105 | `find`/`index`: -1 or the position of the first occurrence, with no occurrence before it |
| PyText.ClampBound | dagda/vulnDB/db_composer.py:74 | a slice bound against length `n`: a bound in `0..n` is kept, one above `n` gives `n`, one in `-n..-1` counts from the end, one below `-n` gives 0 |
| PyText.Slice | dagda/vulnDB/db_composer.py:74 | Python slicing from a non-negative start: the Dafny slice for bounds in range, up to the end for an end past it, up to `len + end` for a negative end, and empty when the range is empty |
| VersionPatterns.DigitRun | dagda/vulnDB/db_composer.py:67 | `[0-9]+` greedy: the run is all digits and is not followed by a digit |
| VersionPatterns.GroupsEnd | dagda/vulnDB/db_composer.py:67 | `(\.[0-9]+)*` greedy: no further dot-and-digits group follows |
| VersionPatterns.VersionEnd | dagda/vulnDB/db_composer.py:67 | the end of a digit-and-dot version starting at a position lies within the string |
| VersionPatterns.VersionStep | dagda/vulnDB/db_composer.py:67 | a version followed by a dot and a digit run is a longer version |
| VersionPatterns.GroupsEndVersion | dagda/vulnDB/db_composer.py:67 | taking every further group keeps a version and ends where no group can follow |
| VersionPatterns.VersionAt | dagda/vulnDB/db_composer.py:67 | the greedy match from a digit is a non-empty version of maximal length |
| VersionPatterns.DelimitedEnd | dagda/vulnDB/db_composer.py:67-69 | the match of `[\s\-]([0-9]+(\.[0-9]+)*)` at a position: after the delimiter comes a version of maximal length |
| VersionPatterns.SearchDelimited | dagda/vulnDB/db_composer.py:67-68 | `re.search`: the leftmost match position, or none exactly when no position matches |
| VersionPatterns.DottedMatch | dagda/vulnDB/db_composer.py:101 | a `[0-9]+(\.[0-9]+)+` match is a version holding a dot, of maximal length |
| VersionPatterns.FindAllDotted | dagda/vulnDB/db_composer.py:101-113 | `re.finditer`: every match is in range and is a maximal dotted version, in left-to-right order without overlap |
| VersionPatterns.FindAllLeftmost | dagda/vulnDB/db_composer.py:102 | no match starts before the first match found |
| VersionPatterns.FindAllComplete | dagda/vulnDB/db_composer.py:109 | every position where a dotted version starts is found or lies inside a found match |
| FeedRecords.Key | dagda/vulnDB/db_composer.py:75 | the `id#product#version` text of lines 75, 106, 111 and 139; specified by `KeyParts` |
| FeedRecords.KeyParts | dagda/vulnDB/db_composer.py:75 | a key whose parts hold no `#` splits back into its source id, product and version, so such triples never share a key |
| FeedRecords.CveProductKey | dagda/vulnDB/db_composer.py:137-139 | the key of one NVD product identifier; specified by `CveKeyOfFields` |
| FeedRecords.CveKeyOfFields | dagda/vulnDB/db_composer.py:137-139 | an identifier made of five or more `:`-free fields gives exactly `id#field3#field4`, without any case change; four or fewer fields give nothing |
| FeedRecords.Dequote | dagda/vulnDB/db_composer.py:98 | `f[1:len(f)-1]`: the field without its first and last characters, and empty for a field shorter than two |
| FeedRecords.ExploitRowOfFields | dagda/vulnDB/db_composer.py:95-99 | a row is searched exactly when its first field is not `id`, it has at least four fields and its de-quoted third field holds a hyphen; the searched text and id are those fields |
| FeedRecords.ExploitRowKeys | dagda/vulnDB/db_composer.py:95-99 | the keys of one CSV row, or none for a skipped row; specified by `ExploitRowOfFields` and `ExploitHeaderSkipped` |
| FeedRecords.ExploitText | dagda/vulnDB/db_composer.py:100 | the searched text of a description; specified by `ExploitTextHasNoHyphen` and by `Strip` and `Lower` |
| FeedRecords.ExploitKeys | dagda/vulnDB/db_composer.py:101-113 | the keys of one searched text; specified by `ExploitKeysOfMatches` and `ExploitFirstMatchIndex` |
| FeedRecords.ExploitHeaderSkipped | dagda/vulnDB/db_composer.py:96 | the header row `id,...` gives nothing and runs no flush check |
| FeedRecords.ExploitTextHasNoHyphen | dagda/vulnDB/db_composer.py:100 | the searched text is taken before the first hyphen and holds none |
| FeedRecords.DigitRunExact | dagda/vulnDB/db_composer.py:101 | proof helper: a digit run is determined by the characters it covers and the one after it |
| FeedRecords.DottedAtCopy | dagda/vulnDB/db_composer.py:105 | an occurrence of a match's text elsewhere starts a dotted version there too |
| FeedRecords.DottedMatchCopy | dagda/vulnDB/db_composer.py:105 | an occurrence of the first match's text is itself a match position |
| FeedRecords.ExploitFirstMatchIndex | dagda/vulnDB/db_composer.py:104-105 | `description.index(version)` of the first match is that match's own start |
| FeedRecords.ExploitKeysOfMatches | dagda/vulnDB/db_composer.py:100-113 | one key per `finditer` match, in order; each version is a maximal dotted version of the searched text; all keys share the stripped text before the first match as product |
| FeedRecords.BidMatchVersion | dagda/vulnDB/db_composer.py:69-72 | the version taken from a match; specified by `BidVersionOfMatch` |
| FeedRecords.BidProductName | dagda/vulnDB/db_composer.py:74-75 | the product before the version; specified by `BidProductBeforeMatch` and `BidKeyAtMatch` |
| FeedRecords.BidProductKey | dagda/vulnDB/db_composer.py:67-77 | the key of one product string; specified by `BidKeyExists` and `BidKeyAtMatch` |
| FeedRecords.BidVersionOfMatch | dagda/vulnDB/db_composer.py:69-72 | stripping the match and dropping a leading `-` leaves exactly the digit-and-dot run after the delimiter |
| FeedRecords.BidKeyExists | dagda/vulnDB/db_composer.py:67-73 | a product string gives a key exactly when some white space or hyphen in it is followed by a digit |
| FeedRecords.BidKeyAtMatch | dagda/vulnDB/db_composer.py:67-75 | at the leftmost match the version is a non-empty maximal version, `index` finds it at or before the match and the key is `id#product#version` |
| FeedRecords.BidProductBeforeMatch | dagda/vulnDB/db_composer.py:74-75 | when the version first occurs at the match, the product is the text before the delimiter, stripped and lower-cased |
| FeedRecords.EarlyCopyKey | dagda/vulnDB/db_composer.py:67-75 | `Foo1.0 1.0` with id `7` gives `7#fo#1.0`: the product is cut at the earlier copy of the version that `index` finds |
| FeedRecords.KeysUntilError | dagda/vulnDB/db_composer.py:62-79 | the keys of products up to the first that raises; specified by `KeysSound`, `KeysComplete` and `KeysStopAtError` |
| FeedRecords.ProductKeys | dagda/vulnDB/db_composer.py:62-79 | the keys of one bugtraq record; specified by `ProductKeysMembers` and `ProductKeysStopAtError` |
| FeedRecords.BidLineKeys | dagda/vulnDB/db_composer.py:62-79 | the keys of one line, none for a malformed one; specified by `ProductKeysMembers` and `BidGroupsPrefix` |
| FeedRecords.ProductKeysText | dagda/vulnDB/db_composer.py:66-77 | proof helper: a string product adds its own key, if any, before the later products' keys |
| FeedRecords.KeysStopAtError | dagda/vulnDB/db_composer.py:62-79 | the keys of a line stop at the first product that is not a string |
| FeedRecords.ProductKeysStopAtError | dagda/vulnDB/db_composer.py:62-79 | a product that raises ends the line: the keys of the earlier products stay and no later product is read |
| FeedRecords.KeysSound | dagda/vulnDB/db_composer.py:66-77 | every key of a line comes from a product reached before any error |
| FeedRecords.KeysComplete | dagda/vulnDB/db_composer.py:66-77 | every product reached before any error adds its key |
| FeedRecords.ProductKeysMembers | dagda/vulnDB/db_composer.py:62-79 | a key comes from a line exactly when some product reached before an error gives it |
| Batching.Step | dagda/vulnDB/db_composer.py:76-83 | one record: add its keys, then flush when more than 8000 are held; specified by `StepKnownKey`, `StepGrows` and `FeedSizes` |
| Batching.Feed | dagda/vulnDB/db_composer.py:59-83 | the loop over all records as a left fold of `Step`; specified by `FeedLast`, `FeedSizes` and `FeedOrigins` |
| Batching.Finish | dagda/vulnDB/db_composer.py:85-87 | the final insert of a non-empty remainder; specified by `BatchSizes` |
| Batching.Batches | dagda/vulnDB/db_composer.py:76-87 | the batches handed to the driver; specified by `BatchSizes`, `BatchMembers` and `CrossBatchDuplicate` |
| Batching.FeedLast | dagda/vulnDB/db_composer.py:80-83 | proof helper: one more record adds its keys and then runs the size check |
| Batching.StepKnownKey | dagda/vulnDB/db_composer.py:76-77 | adding a key the set or the record already holds changes nothing |
| Batching.FeedSizes | dagda/vulnDB/db_composer.py:81-83 | between records the set never exceeds 8000 keys, and every flush of the loop hands over more than 8000 |
| Batching.BatchSizes | dagda/vulnDB/db_composer.py:80-87 | no batch is empty, and all but the last hold more than 8000 keys |
| Batching.StepGrows | dagda/vulnDB/db_composer.py:80-83 | one more record never changes an earlier batch, only adds to the current one |
| Batching.PrefixGrows | dagda/vulnDB/db_composer.py:80-87 | the same holds for any number of further records |
| Batching.KeyInItsBatch | dagda/vulnDB/db_composer.py:76-87 | every key a record adds ends up in the batch its record was assigned to |
| Batching.OfferedIntoExtend | dagda/vulnDB/db_composer.py:76-77 | a key offered into a batch stays offered as records are added |
| Batching.FeedOrigins | dagda/vulnDB/db_composer.py:76-87 | every key of a batch, or of the set still being collected, was added by a record assigned to it |
| Batching.BatchMembers | dagda/vulnDB/db_composer.py:76-87 | a batch holds exactly the keys added by the records assigned to it |
| Batching.BatchIndexMonotone | dagda/vulnDB/db_composer.py:80-83 | a later record never goes to an earlier batch |
| Batching.CrossBatchDuplicate | dagda/vulnDB/db_composer.py:80-83 | a key added before a flush and again after it is in both batches, so duplicates across batches are not removed |
| DbComposer.Inserts | dagda/vulnDB/db_composer.py:82 | one bulk insert per batch, in order, each of its own batch |
| DbComposer.InsertsSnoc | dagda/vulnDB/db_composer.py:85-86 | proof helper: one more batch is one more bulk insert at the end |
| DbComposer.EntryKeys | dagda/vulnDB/db_composer.py:135-141 | the keys of one NVD entry; specified by `EntryKeysSound` and `EntryKeysComplete` |
| DbComposer.CveKeys | dagda/vulnDB/db_composer.py:132-141 | the keys of one year; specified by `CveKeysMembers` |
| DbComposer.EntryKeysSound | dagda/vulnDB/db_composer.py:135-141 | every key of an entry comes from one of its product identifiers |
| DbComposer.EntryKeysComplete | dagda/vulnDB/db_composer.py:135-141 | every product identifier that gives a key adds it |
| DbComposer.CveKeysSound | dagda/vulnDB/db_composer.py:132-141 | every key of a year comes from some product of some entry |
| DbComposer.CveKeysComplete | dagda/vulnDB/db_composer.py:132-141 | every product of every entry that gives a key adds it |
| DbComposer.CveKeysMembers | dagda/vulnDB/db_composer.py:128-142 | a key is in a year's set exactly when some product identifier of some entry gives it |
| DbComposer.YearKeys | dagda/vulnDB/db_composer.py:34-35 | the key sets of the years in `range(2002, 2017)`, in order; specified by `YearKeysYears` |
| DbComposer.YearKeysYears | dagda/vulnDB/db_composer.py:34-35 | one key set per year, in order, each that year's own |
| DbComposer.ExploitGroups | dagda/vulnDB/db_composer.py:94-117 | the key groups of the searched rows; specified by `ExploitGroupsPrefix` |
| DbComposer.ExploitGroupsPrefix | dagda/vulnDB/db_composer.py:96-99 | proof helper: a skipped row adds no group and runs no size check; a searched row adds its keys as one group |
| DbComposer.BidGroups | dagda/vulnDB/db_composer.py:59-83 | one key group per bugtraq line, malformed lines included; specified by `BidGroupsPrefix` and `BidGroupsLength` |
| DbComposer.BidGroupsPrefix | dagda/vulnDB/db_composer.py:59-83 | proof helper: each bugtraq line, malformed or not, appends one group and so moves the batcher one `Step` on; a malformed line's group is empty |
| DbComposer.BidGroupsLength | dagda/vulnDB/db_composer.py:59-83 | one group per bugtraq line, so the size check runs after every line |
| DbComposer.StoredSnoc | dagda/vulnDB/db_composer.py:26-28 | proof helper: a delete empties its collection, a bulk insert adds its documents to its own collection, and neither touches the others |
| DbComposer.StoredInserts | dagda/vulnDB/db_composer.py:82 | bulk inserts add every batch to their own collection and leave the others alone |
| DbComposer.TotalCountsBatches | dagda/vulnDB/db_composer.py:80-83 | a key in two different batches is stored at least twice |
| DbComposer.TotalHolds | dagda/vulnDB/db_composer.py:82 | every key of a batch is stored |
| DbComposer.StoredCleared | dagda/vulnDB/db_composer.py:26-28 | clearing the three collections empties each of them, whatever they held |
| DbComposer.CallsFor | dagda/vulnDB/db_composer.py:23-45 | the driver calls of a composition, given the batches of the two batched feeds; specified by `ComposedCollections` and `Inserts` |
| DbComposer.ExploitBatches | dagda/vulnDB/db_composer.py:94-121 | the Exploit-DB batches of the CSV text, split into lines; specified by `BatchSizes` and `BatchMembers` over `ExploitGroups` |
| DbComposer.ComposeCalls | dagda/vulnDB/db_composer.py:23-45 | every call `compose_vuln_db` makes; specified by `ComposedCollections` and by the ensures of `ComposeVulnDb` |
| DbComposer.ComposedCollections | dagda/vulnDB/db_composer.py:23-45 | after a composition each collection holds exactly its own batches: the CVE one the years 2002 to 2016, the others their feed's batches |
| DbComposer.KeysStep | dagda/vulnDB/db_composer.py:66-77 | proof helper: the keys from product `j` on are its own key and those after it |
| DbComposer.DBComposer.constructor | dagda/vulnDB/db_composer.py:18-20 | a new composer has made no driver call |
| DbComposer.DBComposer.ComposeVulnDb | dagda/vulnDB/db_composer.py:23-45 | the calls made: the three deletes, one CVE insert per year from 2002 to 2016, then the Exploit-DB batches, then the bugtraq batches |
| DbComposer.DBComposer.GetAndInsertBugTraqsFromFile | dagda/vulnDB/db_composer.py:50-87 | the bulk inserts made are exactly those of `Batches` over the lines' key groups |
| DbComposer.DBComposer.AddKeysUntilError | dagda/vulnDB/db_composer.py:62-79 | the `try` block of one line adds exactly the keys of the products before the first error |
| DbComposer.DBComposer.GetAndInsertExploitDbFromCsv | dagda/vulnDB/db_composer.py:90-121 | the bulk inserts made are exactly those of `Batches` over the key groups of the searched rows |
| DbComposer.DBComposer.AddKeys | dagda/vulnDB/db_composer.py:106-113 | adding the keys of a row one at a time, each only when absent, gives the union of the set and the keys |
| DbComposer.DBComposer.GetCveListFromFile | dagda/vulnDB/db_composer.py:127-142 | the key set of one year is `CveKeys` of its entries |

## Left out

- The network (`requests.get`), gzip and zlib decompression, UTF-8 decoding, XML parsing
  and JSON decoding are not modelled. Their decoded results are parameters: the CVE
  entries of each year, the CSV text, and the bugtraq lines.
- The Mongo driver is not part of this model. Only the sequence of calls made on it is
  recorded: deletes and bulk inserts. Documents are stored as a multiset of keys.
- `progressbar`, `print` and `time.sleep` are not modelled. They change no state the
  composer reads.
- An NVD product element whose `text` is `None` would raise in Python. Each product
  identifier is taken to be a string.
- An entry without an `id` attribute would also raise in Python. Each entry's id is
  taken to be a string.
- A `vuln_products` that is a JSON string is iterated character by character. In the
  model, its decoding is a record whose products are those one-character strings.
- `strip`, `lower` and the regex class `\s` (line 67) are modelled on the ASCII
  white-space set and for ASCII letters only. Python's full Unicode tables are not
  modelled. For example, Python's `\s` matches U+00A0, so `"Foo\u00a01.0"` gives a key
  in Python and none in the model.
- The two regular expressions are modelled as hand-written scanners, each for its fixed
  pattern only.
- The order of `list(set)` is unspecified in Python. Each bulk insert carries a set.
- `bulk_insert_cves` is called even for a year with no keys. This is modelled as
  written, with an empty set.
- PyText.Slice: a negative start is not covered by the contract, since the composer
  slices only from 0 or 1; the function itself follows Python's rule for it too.
- DbComposer.DBComposer.GetCveListFromFile: returns a set rather than `list(set)`, since
  the list's order is unspecified.
