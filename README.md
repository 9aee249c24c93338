# Popolo data records, dates and collections — a Dafny model

This project models the in-memory core of a Python library for Popolo political
data: people, organizations, memberships, areas, posts and events. Each record is
kept as a JSON dictionary. The model covers:

- the text form of approximate dates (`approx_date_to_iso`) and how it is read back
  (`approx_date_getter`);
- reading attributes with stored defaults;
- the related-value lists of a record (identifiers, links, contact details), which
  are read and updated in place;
- the richness ordering and id equality of records;
- the person rules: name history, Twitter handle, duplicate removal;
- membership identity and its PAST/FUTURE date defaults;
- keyed collections, with `filter`, `get`, `first` and the event classifications.

Modules:

- `Wrappers`: `Option` and `Result`.
- `Json`: JSON values, Python truthiness and `dict.get`.
- `Text`: the Python string operations used here (digits, `str` comparison, `split`,
  `strip`, `lstrip`).
- `ApproxDates`: calendar days, approximate dates and their text forms.
- `Base`: the record layer of `popolo_data/base.py`. `PopoloObject` is a class whose
  `data` map its methods update.
- `Models`: `popolo_data/models.py`.
- `Collections`: `popolo_data/collections.py`. `PopoloCollection` is a class built by
  a loop that fills the key index.

The `ApproxDate` class is not part of this model. Its `from_iso8601` parser is
modelled only on the three shapes its tests fix: `YYYY` is the whole year, `YYYY-MM`
the whole month, and `YYYY-MM-DD` a single day. `PAST` and `FUTURE` are taken to be
the single days 0001-01-01 and 9999-12-31.

Three operations the code calls without showing them become parameters:

- the length of `json.dumps(data)`, used by the richness ordering, is `size`;
- Python's `hash` of the six membership keys is `hash`;
- `urlsplit` followed by the path regex is a `UrlReader`. It is only assumed to
  recognise text that contains `twitter.com`.

`Membership.id` hashes all six foreign-key values in order, None included.

## Model

| member | source | states |
|---|---|---|
| `ApproxDates.DaysInMonth` | popolo_data/base.py:19 | The month length is between 28 and 31. It is 29 exactly for February of a leap year. |
| `ApproxDates.Format` | popolo_data/base.py:9-28 | The canonical text holds a space exactly when the interval is not a single day, a whole month or a whole year. |
| `ApproxDates.FormatShape` | popolo_data/base.py:9-28 | A single day is written as its ISO date. A whole month (leap-aware) is written as year-month, and this test runs before the year test. Jan 1 to Dec 31 of one year is written as the year. Anything else is written as "earliest to latest". |
| `ApproxDates.FormatSeparatorIff` | popolo_data/base.py:9-28 | The text contains " to " exactly when the interval is not a day, a whole month or a whole year. |
| `ApproxDates.FromIso8601` | approx_dates/tests/test_creation.py:10-29 | A successful parse gives a valid interval whose earliest day is no later than its latest. |
| `ApproxDates.ParsesYear` | approx_dates/tests/test_creation.py:17-22 | A year from 1 to 9999, written with four digits, reads as January 1 to December 31 of that year. |
| `ApproxDates.ParsesMonth` | approx_dates/tests/test_creation.py:24-29 | A year from 1 to 9999 written with four digits, and a two-digit month, read as the first to the last day of that month. |
| `ApproxDates.ParsesTestShapes` | approx_dates/tests/test_creation.py:17-29 | "1964" is 1964-01-01 to 1964-12-31 and "1964-06" is 1964-06-01 to 1964-06-30. |
| `ApproxDates.ApproxDateGetter` | popolo_data/base.py:30-41 | Every interval read is valid, with earliest no later than latest. Text without " to " is read as one part. |
| `ApproxDates.GetterOfRange` | popolo_data/base.py:32-39 | "x to y", with halves that hold no space and parse, runs from the earliest day of x to the latest day of y, whatever the precision of each half. An inverted result is rejected. |
| `ApproxDates.YearToMonth` | popolo_data/base.py:32-39 | "1963 to 1964-06" runs from 1963-01-01 to 1964-06-30. |
| `ApproxDates.ReadIso` | approx_dates/tests/test_creation.py:10-15 | An ISO date reads back as the single-day interval, with the parser and with the getter. |
| `ApproxDates.GetterOfFormat` | popolo_data/base.py:30-41 | Round trip: reading the canonical text gives back the interval. In the range shape, earliest comes from the left half and latest from the right half. |
| `ApproxDates.FormatOfFromIso8601` | approx_dates/tests/test_creation.py:10-29 | A parsed one-part text with a four-digit year formats back to the same text. |
| `ApproxDates.IsoOrder` | popolo_data/models.py:19-22 | Comparing ISO texts as strings orders them exactly as the calendar days. |
| `ApproxDates.SentinelsBoundEveryDate` | popolo_data/models.py:157-158 | PAST lies on or before every valid day, and FUTURE on or after it. |
| `Text.Split` | popolo_data/base.py:32-33 | There is at least one part, and exactly one when the separator does not occur. No part holds the separator, and the parts joined by it give back the text. |
| `Text.SplitJoined` | popolo_data/base.py:32-33 | Splitting a + sep + b gives [a, b] when a holds no character equal to the first character of sep and b does not contain sep. |
| `Text.TrimLeft` | popolo_data/models.py:28 | Removes exactly the longest prefix of characters that are to be dropped, as `lstrip` does. |
| `Base.First` | popolo_data/base.py:44-46 | None exactly for an empty list, otherwise the first item. |
| `Base.ReadAttribute` | popolo_data/base.py:83-92 | A plain attribute (no default, `null=False`) returns `data.get(key)` and stores nothing. Otherwise a present key is returned as stored. A missing key gets the default stored and returned. No other key changes. |
| `Base.ReadAttributeTwice` | popolo_data/base.py:76-92 | A second read returns the same value and leaves the data as the first read left it. |
| `Base.PopoloObject.ReadAttr` | popolo_data/base.py:83-92 | The value returned and the record's new data are those of `ReadAttribute`. |
| `Base.PopoloObject.constructor` | popolo_data/base.py:211-216 | The record's data is the given data updated with the keyword arguments. |
| `Base.DateField` | popolo_data/base.py:222-226 | A falsy or missing value gives the default. A truthy value that is not text is an error. Truthy text is read with the date getter. |
| `Base.DateFieldOfFormat` | popolo_data/base.py:135-140 | A date stored as its canonical text reads back as the same interval. |
| `Base.ValuesOf` | popolo_data/base.py:260-264 | A value is read exactly when some entry of the wanted type holds it under the value key. The values are never more than the entries. |
| `Base.ValuesOfConcat` | popolo_data/base.py:260-264 | The values of two lists put together are the values of the first followed by those of the second, so list order is kept. |
| `Base.ValuesOfFirst` | popolo_data/base.py:260-264 | The values are empty exactly when no entry has the type. Otherwise the first value is that of the first entry of that type. |
| `Base.RelatedValue` | popolo_data/base.py:304-342 | `identifier_value`, `link_value` and `contact_detail_value`: the value of the first entry of the type, or None when there is none. |
| `Base.SetEntry` | popolo_data/base.py:283-290 | The list grows by one exactly when no entry has the type. Every entry except the first match is unchanged. The first match keeps its other fields and gets the new value. With no match, the appended entry holds just the type and the value. |
| `Base.DelEntry` | popolo_data/base.py:266-274 | With no match the list is unchanged. Otherwise exactly the first match is removed and the other entries keep their order. |
| `Base.SetThenValues` | popolo_data/base.py:277-305 | After a set, the new value is read first and the first old value of that type is gone. With no old value, the new entry is the only one. |
| `Base.OverwriteThenValues` | popolo_data/base.py:284-287 | Overwriting the first match replaces the first value read and nothing else. |
| `Base.SetKeepsOtherTypes` | popolo_data/base.py:283-291 | Values of every other type read the same after a set. |
| `Base.DelThenValues` | popolo_data/base.py:266-274 | After a delete, exactly the first value of that type is gone. Other types are unchanged. |
| `Base.SetRelated` | popolo_data/base.py:277-291 | The list keeps its shape. No key of the record other than the list's changes. |
| `Base.DelRelated` | popolo_data/base.py:266-274 | The list keeps its shape. No key of the record other than the list's changes. |
| `Base.SetRelatedThenValues` | popolo_data/base.py:277-291 | At record level, what a set leaves to read for the same type and for any other type. |
| `Base.DelRelatedThenValues` | popolo_data/base.py:266-274 | At record level, what a delete leaves to read for the same type and for any other type. |
| `Base.SetContactDetail` | popolo_data/base.py:334-339 | The contact list keeps its shape. Every other key of the record is unchanged. |
| `Base.SetContactDetailThenValues` | popolo_data/base.py:326-342 | A truthy value is then read first. A falsy value removes the first contact detail of that type. |
| `Base.PopoloObject.SetRelatedValues` | popolo_data/base.py:277-291 | The scan-and-overwrite or append loop leaves the data given by `SetRelated`. |
| `Base.PopoloObject.DelRelatedValues` | popolo_data/base.py:266-274 | The scan that stops at the first match (or at the last entry) leaves the data given by `DelRelated`. |
| `Base.PopoloObject.SetIdentifierValues` | popolo_data/base.py:297-302 | Sets the identifier of the scheme: a set on `identifiers`, keyed by `scheme`. |
| `Base.PopoloObject.SetLinkValues` | popolo_data/base.py:310-314 | Sets the url of the note: a set on `links`, keyed by `note`. |
| `Base.PopoloObject.DelLinkValues` | popolo_data/base.py:316-320 | Deletes the first link with the note. |
| `Base.PopoloObject.DelContactDetailValues` | popolo_data/base.py:330-332 | Deletes the first contact detail of the type. |
| `Base.PopoloObject.SetContactDetailValues` | popolo_data/base.py:334-339 | Leaves the data given by `SetContactDetail`, so a falsy value deletes. |
| `Base.LessRich` | popolo_data/base.py:368-378 | A record is never less rich than an identical one. |
| `Base.MoreRich` | popolo_data/base.py:380-390 | `a > b` holds exactly when `b < a`. |
| `Base.SameRecord` | popolo_data/base.py:358-361 | Records with identical data are equal. |
| `Base.DifferentRecord` | popolo_data/base.py:363-366 | `!=` is the negation of `==`. |
| `Base.RichnessIsStrictOrder` | popolo_data/base.py:368-390 | `<` by serialized size is irreflexive, asymmetric and transitive. `a > b` holds exactly when `b < a`. |
| `Base.RecordEqualityIsEquivalence` | popolo_data/base.py:358-366 | Equality by `id` is reflexive, symmetric and transitive. `!=` is its negation. |
| `Models.SentinelTexts` | popolo_data/models.py:20-21 | The fallback texts are the ISO forms of the earliest and latest days. |
| `Models.IsNameCurrentAt` | popolo_data/models.py:19-22 | A name current at a date starts on or before it, and so has a start no later than its end. |
| `Models.NameWindowByDate` | popolo_data/models.py:19-22 | On ISO dates the bounds can be compared, and the name window test is the inclusive calendar test start <= day <= end. A missing start means 0001-01-01 and a missing end means 9999-12-31. |
| `Models.HistoricNames` | popolo_data/models.py:112 | An entry is kept exactly when it is an input entry with a truthy `end_date`. The result is never longer than the input. |
| `Models.NamesAt` | popolo_data/models.py:115-118 | An entry is kept exactly when it is an input entry current at the date. The result is never longer than the input. |
| `Models.Candidates` | popolo_data/models.py:112-118 | An entry is a candidate exactly when it is an input entry that is historic and current at the date. |
| `Models.HistoricComparableIff` | popolo_data/models.py:112-118 | Every historic entry can be compared with the date exactly when no entry whose end date is set holds a bound that is not text where it is compared. |
| `Models.HistoricThenCurrent` | popolo_data/models.py:112-118 | The two filters of `name_at` give exactly the candidates, in order, with its key index built over them. |
| `Models.NameEntries` | popolo_data/models.py:112 | Iterating other_names fails with TypeError exactly for None, a number or a boolean. Anything else that yields entries yields dictionaries, and a non-empty result is the stored list. |
| `Models.NameAt` | popolo_data/models.py:111-124 | TypeError exactly when other_names cannot be iterated. AttributeError when a list entry is not a dictionary. With a list of dictionaries, the comparison TypeError exactly when a historic entry holds a bound that is not text where it is compared. An empty other_names gives the plain name. A multiple-names error counts more than one name. |
| `Models.NameAtByCandidates` | popolo_data/models.py:111-124 | No candidate gives the plain name. Several give the multiple-names error, with their count. One gives that entry's name, or a missing-name error when it has none. |
| `Models.NameAtWithoutCandidates` | popolo_data/models.py:112-120 | When no historic name is current at the date, the plain name is returned. |
| `Models.ExtractTwitterUsername` | popolo_data/models.py:24-28 | Outside a twitter.com URL, the result is no longer than the input and does not start with `@`. |
| `Models.PlainHandleUnchanged` | popolo_data/models.py:28 | A handle with no surrounding whitespace and no leading `@` is returned as it is. |
| `Models.ExtractPlainText` | popolo_data/models.py:28 | Outside a URL, the handle is the input stripped of whitespace, minus a prefix made only of `@`. |
| `Models.TwitterOf` | popolo_data/models.py:70-76 | None exactly when neither the contact detail nor the link is truthy. An error exactly when the truthy value found is not text. |
| `Models.TwitterPrefersContact` | popolo_data/models.py:70-76 | The getter uses a truthy first contact detail when there is one. Otherwise it uses a truthy first link, and otherwise it returns None. A value found that is not text is an error. |
| `Models.LinkWithContact` | popolo_data/models.py:83-86 | Needs only lists whose entries carry their type key, and keeps them so. On readable lists, the URL becomes the first twitter link and the handle is then read first among the contact details, or deleted when empty. |
| `Models.UnlinkWithContact` | popolo_data/models.py:87-89 | Needs only lists whose entries carry their type key, and keeps them so. On readable lists, the first twitter link is removed and the value is then read first among the contact details, or the first one is removed when the value is falsy. |
| `Models.WithTwitter` | popolo_data/models.py:78-89 | The setter needs only the type keys. It keeps both lists shaped, and keeps them readable when they were. |
| `Models.WithTwitterAsWritten` | popolo_data/models.py:83 | The setter as written fails exactly on None. Otherwise it matches `WithTwitter`. |
| `Models.SetTwitter` | popolo_data/models.py:78-89 | The setter on a record leaves the data given by `WithTwitter`. |
| `Models.TwitterPlainReadBack` | popolo_data/models.py:70-89 | After setting a non-URL name, the getter returns that name without surrounding whitespace or leading `@`s. The first twitter link is gone. |
| `Models.TwitterUrlReadBack` | popolo_data/models.py:70-89 | After setting a twitter.com URL with a plain handle, the getter returns the handle and the URL is the first twitter link. |
| `Models.TwitterClear` | popolo_data/models.py:87-89 | Clearing removes the first twitter link and the first twitter contact detail. With at most one of each, the getter then returns None. |
| `Models.TwitterScenario` | tests/test_save.py:40-50 | Name, then URL, then name again reads back "testuser". Setting None afterwards fails as written. |
| `Models.UniquePreservingOrder` | popolo_data/models.py:30-36 | Each distinct element appears exactly once, the element set is unchanged, and elements are ordered by their first occurrence. |
| `Models.MembershipId` | popolo_data/models.py:160-170 | The id is the hash of the list of the six foreign-key values, in the order the source lists them. |
| `Models.MembershipKey` | popolo_data/models.py:165-170 | The six foreign-key values, in the source's order. |
| `Models.MembershipIdByForeignKeys` | popolo_data/models.py:160-170 | Memberships that agree on the six foreign keys have the same id. |
| `Models.MembershipIdIgnoresOtherFields` | popolo_data/models.py:160-170 | Changing any other field leaves the id unchanged. |
| `Models.MembershipEqualityFinerThanId` | popolo_data/models.py:160-185 | Equal memberships share an id, and `!=` negates `==`. Two memberships that differ only in role share an id but are not equal. |
| `Models.StartDate` | popolo_data/models.py:157 | A missing start date gives PAST. |
| `Models.EndDate` | popolo_data/models.py:158 | A missing end date gives FUTURE. |
| `Models.OpenMembershipSpansEveryDay` | tests/test_membership.py:141-145 | A membership without dates starts on or before, and ends on or after, every valid day. |
| `Models.KeyForHash` | popolo_data/models.py:187-189 | Any record other than a membership is keyed by its `id`. |
| `Models.KeyForHashMatchesEquality` | popolo_data/models.py:177-189 | Two memberships share a key exactly when they are equal. Other records share a key exactly when their ids are equal. |
| `Collections.KeyIndex` | popolo_data/collections.py:16-18 | The index has no more keys than there are records. |
| `Collections.KeyIndexCovers` | popolo_data/collections.py:16-18 | Every record's key is indexed. Each key leads to a record of the list that has that key. |
| `Collections.KeyIndexLastWins` | popolo_data/collections.py:16-18 | When keys repeat, the key leads to the last record that has it. |
| `Collections.FilterData` | popolo_data/collections.py:30-34 | A record is kept exactly when it is in the input and matches every criterion. The result is never longer than the input. |
| `Collections.FilterConcat` | popolo_data/collections.py:31-34 | Filtering distributes over concatenation, so relative order is preserved. |
| `Collections.FilterNothing` | popolo_data/collections.py:30-34 | Empty criteria keep every record, in order, with its key index built over them. |
| `Collections.FilterTwice` | popolo_data/collections.py:30-35 | Filtering twice by the same criteria equals filtering once. |
| `Collections.FilterOne` | popolo_data/collections.py:37-48 | One surviving record means exactly one matching position. |
| `Collections.ClassificationFilters` | popolo_data/collections.py:92-102 | Elections and legislative periods are exactly the events with those classifications. No event is both. |
| `Collections.PopoloCollection.constructor` | popolo_data/collections.py:11-18 | The records are the input items, in order (so the length is the input length). The index is `KeyIndex` of them. |
| `Collections.PopoloCollection.Length` | popolo_data/collections.py:20-21 | The number of records. |
| `Collections.PopoloCollection.Item` | popolo_data/collections.py:23-24 | Python list indexing: succeeds exactly for -len <= i < len, and index i is record i. Otherwise it is an IndexError. |
| `Collections.ItemNegativeIndex` | popolo_data/collections.py:23-24 | A negative index reads the same record as its non-negative counterpart. |
| `Collections.PopoloCollection.FirstObject` | popolo_data/collections.py:26-28 | None exactly for an empty collection, otherwise the record at index 0. |
| `Collections.PopoloCollection.Filter` | popolo_data/collections.py:30-35 | A new collection of the same kind holding the matching records, in order, with its key index built over them. |
| `Collections.PopoloCollection.Get` | popolo_data/collections.py:37-48 | DoesNotExist exactly when nothing matches. MultipleObjectsReturned exactly when more than one record matches, with their count. Otherwise the record at the only matching position. |
| `Collections.PopoloCollection.Elections` | popolo_data/collections.py:92-96 | A new event collection of the records classified "general election", in order, with its key index built over them. |
| `Collections.PopoloCollection.LegislativePeriods` | popolo_data/collections.py:98-102 | A new event collection of the records classified "legislative period", in order, with its key index built over them. |

## Left out

- `ApproxDates.GetterOfFormat`: for the whole-month and whole-year shapes, the round trip is stated only for years from 1000 on. The formatter writes shorter years without padding, which the four-digit parse shapes do not read.
- `ApproxDates.FormatOfFromIso8601`: stated only for texts whose year has no leading zero, for the same reason.
- `ApproxDates.ApproxDateGetter`: a range whose end lies before its start is rejected with an `Inverted` error, because an approximate date keeps earliest <= latest. How the `ApproxDate` class signals this is not part of this model.
- The `ApproxDate` class (midpoints, comparisons, `possibly_between`, its own text form) is not part of this model. Neither is `CurrentMixin`, which also needs today's date.
- An entry of a related list without the type key makes the source raise KeyError. `SetEntry` and the record-level operations require every entry to carry that key (`Keyed`, part of `ListShaped`). This also covers the entries after the first match, which the set and delete loops never read, since both stop there. Likewise, reading values requires every entry of the wanted type to hold the value key (`Readable`); the source raises KeyError otherwise.
- `Base.ValuesOf` and `Base.DelEntry`: on their own they take any list and read an entry without the type key as a non-match, where the source raises KeyError on reaching it. The record-level operations that call them (`RelatedValues`, `DelRelated`) pass only `Keyed` lists.
- A related list key holding something other than a list is excluded by `ListShaped`. The source fails on most such values when it sets or reads them, but not on all: reading an empty string or an empty dictionary gives no values, and deleting from any falsy value does nothing.
- A record constructed with `data=None` starts from an empty dictionary. The model passes the map directly.
- `update` also changes the caller's dictionary. Likewise, set and delete change a list that may be shared with other holders. The model has no aliasing: each record owns its map.
- `Models.NameAt`: reading `other_names` stores the default empty list when the key is missing. `NameAt` returns only the value, not that change of the record.
- `Models.TwitterOf`: requires both twitter lists to be readable (`TwitterShaped`), because `TwitterSource` reads the link list even when the contact detail is set. The source reads the links only when the contact detail is falsy.
- `Models.ExtractTwitterUsername`: the URL branch (`urlsplit` and the path regex) is a caller-supplied reader. The model only assumes that any text it recognises contains `twitter.com`.
- `twitter_all` and `memberships` (reached through the whole dataset) are not part of this model.
- `Collections.PopoloCollection.Filter`: a criterion that names no attribute of the kind makes `getattr` raise AttributeError in the source (as `m.name` does for a membership). `MatchesCriteria`, and so `Filter` and `Get`, read such a key with `dict.get` instead. Criteria are a map, so the order in which `all` tries them, and whether an earlier mismatch hides the error, is not modelled either.
- Filter criteria are compared with the stored value, as a plain attribute reads it. This leaves out criteria that name attributes with defaults (whose read would store the default) and computed properties such as dates, identifiers and twitter.
- Python equality between different numeric types (`1 == 1.0 == True`) is not modelled. JSON numbers are integers only.
- The comparison operators return `NotImplemented` for records of different classes. The model compares records of one kind only.
- `absorb` does nothing in the base class. There is nothing to state about it.
- Descriptor plumbing is not part of this model: the metaclass that names attributes, `Attribute.__set__`, `DateAttribute.__set__`, the typed attribute getters (first value or default) and `RelatedAttribute`. Nor is display (`repr`, `json`).
- `popolo_data/importer.py` (file and network loading) and the merge of whole datasets are not part of this model.

## Findings

| source | as written | input that shows it | evidently intended | confidence | as-written member | corrected member |
|---|---|---|---|---|---|---|
| popolo_data/models.py:83 | The setter tests `"twitter.com" in value` before anything else. For None this raises TypeError. | `p.twitter = None` at tests/test_save.py:50, after the assignments at lines 45-47 | None clears the Twitter handle: it removes the first twitter link and the first twitter contact detail | not executed | `Models.WithTwitterAsWritten` (shown by `Models.TwitterScenario`) | `Models.WithTwitter` (proved by `Models.TwitterClear`) |
