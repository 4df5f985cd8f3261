# play-utils: binders, form helpers and tabs in Dafny

This project models the utilities that kcoolsae/play-utils adds to Play Framework web applications:

- **Query-string binders.** Three binders carry the state of a paged, sorted, filtered table through a URL:
  - `Pager` holds a page number and a page size, written as `key.nr` and `key.size`.
  - `Sorter` holds a sort column and a direction, written as `key=%2Bcolumn` (the `+` URL-encoded) or `key=-column`.
  - `StringMap` is a filter map, written as `key.k=value`.
  - `PSF` bundles the three under one key `s`, as `s.p`, `s.s` and `s.f`.

  Each binder's `bind` fills the object in place from the request parameters. Its `unbind` writes the object back as a query string.
- **Form helpers (`Forms`).** These collect the indices `i` of repeating form fields `name[i]`. They fall back on the collection behind the form when the form data has none. They return the indices ascending and without duplicates, or the field names built from them.
- **Tabs (`Tab`).** A tab set in which the page activates the tab with a given id.

Layout. There is one module per source file:

| module | models |
|---|---|
| `Pagers` | `Pager` |
| `Sorters` | `Sorter` |
| `StringMaps` | `StringMap` |
| `Psfs` | `PSF` |
| `Forms` | `Forms` |
| `Tabs` | `Tab` |

Four support modules model the parts of the Java platform the core relies on:

- `JavaLang`:
  - 32-bit `int` arithmetic with wrap-around.
  - `Integer.toString` and `Integer.parseInt`.
  - `Math.abs`.
  - `String.startsWith`, `indexOf`, `isBlank` and `trim`.
- `FormUrlEncoding`:
  - `URLEncoder.encode` with UTF-8.
  - A reference decoder and query-string parser, following section 5.1 of the WHATWG URL Standard (application/x-www-form-urlencoded parsing). It stands for the framework's own parsing of the request.
- `SortedSets`: a `TreeSet` filled element by element and read back in ascending order, for the three comparators the form helpers use.
- `Wrappers`: `Option`.

How the binders are modelled:

- **Value plus class.** The state each binder holds is a value: a `Page`, a `Sort`, or a map for the filter. The pure operations (`next`, `forColumn`, `unbind`, ...) are functions on that value. The Java object whose fields `bind` overwrites is a class with those fields. Its `Bind` method is proved against a function that says what binding does to the old value (`PagerBind`, `SortBind`). The filter's `Bind` is proved against `Collected` and `HasMultiValued`.
- **Round trips.** These are lemmas at the value level. They use the reference parser: binding the parameters parsed from the text `unbind` writes restores the value.
- **`HashMap` iteration order.** Java leaves it unspecified. So `StringMap.Bind` and `StringMap.Unbind` visit the entries in any order. `Unbind` returns the order it used as a ghost result. Every property is proved for every order.

## Model

| member | source | states |
|---|---|---|
| Pagers.Pager.Empty | app/be/ugent/caagt/play/binders/Pager.java:36-38 | a pager created for binding holds page 0 of size 0 |
| Pagers.Pager.constructor | app/be/ugent/caagt/play/binders/Pager.java:40-43 | the pager holds the given page number and page size |
| Pagers.Page.HasNext | app/be/ugent/caagt/play/binders/Pager.java:49-51 | there is a next page exactly when the last row shown, `getEnd(count)`, is not the last of the `count` rows |
| Pagers.Page.Next | app/be/ugent/caagt/play/binders/Pager.java:53-55 | same page size; the page number is one higher unless it is the largest `int` |
| Pagers.Page.Previous | app/be/ugent/caagt/play/binders/Pager.java:57-59 | same page size; the page number one lower when it is positive, and page 0 otherwise (also for a negative page number) |
| Pagers.Page.HasPrevious | app/be/ugent/caagt/play/binders/Pager.java:45-47 | there is a previous page exactly when `previous()` goes to a lower page number |
| Pagers.PreviousUndoesNext | app/be/ugent/caagt/play/binders/Pager.java:53-59 | `next()` then `previous()` returns to the same page, for page numbers from 0 below the largest `int` |
| Pagers.NextUndoesPrevious | app/be/ugent/caagt/play/binders/Pager.java:53-59 | from a page with a previous one, `previous()` then `next()` returns to it |
| Pagers.Page.GetStart | app/be/ugent/caagt/play/binders/Pager.java:61-63 | without overflow, the first row of the page counted from 1, `pageSize * pageNr + 1` |
| Pagers.Page.GetEnd | app/be/ugent/caagt/play/binders/Pager.java:65-67 | the smaller of `count` and the rows through this page: at most both, and equal to one of them |
| Pagers.StartEndOfPage | app/be/ugent/caagt/play/binders/Pager.java:61-67 | without overflow, the rows `getStart()` to `getEnd(count)` number at most `pageSize`; once `count` reaches the rows before the page, `getStart()` is at most `getEnd(count) + 1`; and `getEnd(count)` is the smaller of `count` and `pageSize * (pageNr + 1)` |
| Pagers.Page.GetFirst | app/be/ugent/caagt/play/binders/Pager.java:69-71 | page 0 of the same size, which has no previous page |
| Pagers.Page.Resize | app/be/ugent/caagt/play/binders/Pager.java:73-75 | the new page has the requested size; a size of 0 is excluded, because Java throws there |
| Pagers.ResizeKeepsFirstRow | app/be/ugent/caagt/play/binders/Pager.java:73-75 | without overflow, the resized page holds the first row of the old page: `r.pageNr * size <= pageNr * pageSize < (r.pageNr + 1) * size` |
| Pagers.PagerBind | app/be/ugent/caagt/play/binders/Pager.java:77-92 | binding succeeds exactly when `key.nr` and `key.size` each have one value and both parse as `int`s; on success the page holds the parsed values; on failure the page size is unchanged, and a changed page number is the parsed `key.nr` |
| Pagers.Pager.Bind | app/be/ugent/caagt/play/binders/Pager.java:77-92 | the result and the new fields are what `PagerBind` gives for the old fields |
| Pagers.BindFailsOnMissingOrRepeated | app/be/ugent/caagt/play/binders/Pager.java:79-82 | a missing or repeated `key.nr` or `key.size` fails and leaves the pager as it was |
| Pagers.BindStoresPageNrBeforeFailing | app/be/ugent/caagt/play/binders/Pager.java:84-90 | for every page number that parses followed by a page size that does not: the bind fails, but the page number has already been overwritten with the parsed one and the size kept |
| Pagers.Page.Unbind | app/be/ugent/caagt/play/binders/Pager.java:94-97 | the text is the query string of the two parameters `key.nr` and `key.size`, holding the decimal page number and page size |
| Pagers.BindParameters | app/be/ugent/caagt/play/binders/Pager.java:77-97 | parameters holding the decimal texts `unbind` writes bind to exactly that page, whatever the pager held before |
| Pagers.PagerRoundTrip | app/be/ugent/caagt/play/binders/Pager.java:77-97 | binding the parsed text of `unbind(key)` succeeds and restores page number and page size, for a key that needs no encoding |
| Sorters.Sorter.constructor | app/be/ugent/caagt/play/binders/Sorter.java:30-33 | the sorter holds the given column and direction |
| Sorters.Sorter.Empty | app/be/ugent/caagt/play/binders/Sorter.java:35-37 | a sorter created for binding holds no column and is descending |
| Sorters.Sort.GetCellClass | app/be/ugent/caagt/play/binders/Sorter.java:48-50 | "sortable" exactly on the sort column, "" elsewhere |
| Sorters.Sort.GetColumnClass | app/be/ugent/caagt/play/binders/Sorter.java:52-58 | "sorted asc" or "sorted desc" exactly on the sort column, following the direction; "sortable" exactly on the other columns |
| Sorters.Sort.ForColumn | app/be/ugent/caagt/play/binders/Sorter.java:60-66 | the clicked column becomes the sort column; it is ascending exactly when it is a new column or the old direction was descending |
| Sorters.ForColumnTwice | app/be/ugent/caagt/play/binders/Sorter.java:60-66 | two clicks on the sort column restore the sorter |
| Sorters.ForColumnClasses | app/be/ugent/caagt/play/binders/Sorter.java:48-66 | after a click on a column, that column shows as sorted and as the sortable cell, and every other column header is "sortable" |
| Sorters.SortBind | app/be/ugent/caagt/play/binders/Sorter.java:68-85 | binding succeeds exactly when `key` has one value starting with '+' or '-'; the sign gives the direction and the rest the column; on failure nothing changes |
| Sorters.Sorter.Bind | app/be/ugent/caagt/play/binders/Sorter.java:68-85 | the result and the new fields are what `SortBind` gives for the old fields |
| Sorters.BindRejectsMissingSign | app/be/ugent/caagt/play/binders/Sorter.java:74-80 | a value without a sign, the empty one included, fails and changes nothing |
| Sorters.Sort.Unbind | app/be/ugent/caagt/play/binders/Sorter.java:87-90 | the text is the query string of the one parameter `key`, holding the sign followed by the column, encoded |
| Sorters.BindParameters | app/be/ugent/caagt/play/binders/Sorter.java:68-90 | a parameter holding the sign and column `unbind` writes binds to exactly that sorter |
| Sorters.SortRoundTrip | app/be/ugent/caagt/play/binders/Sorter.java:68-90 | binding the parsed text of `unbind(key)` succeeds and restores column and direction, for an ASCII column |
| StringMaps.StringMap.constructor | app/be/ugent/caagt/play/binders/StringMap.java:31-33 | the map starts empty |
| StringMaps.StringMap.Copy | app/be/ugent/caagt/play/binders/StringMap.java:38-58 | the map holds exactly the listed keys whose value in the source is present and not blank (`isBlank`), with that value; the enum constructor is the same with the constants' names as the keys |
| StringMaps.StringMap.Bind | app/be/ugent/caagt/play/binders/StringMap.java:60-74 | fails exactly when some parameter `key.k` has several values; on success every `key.k` with one value that is not blank after trimming is put under `k`, over the old entries; on failure the entries of some of the parameters have been put already |
| StringMaps.BindIgnoresOtherParameters | app/be/ugent/caagt/play/binders/StringMap.java:63-64 | adding a parameter that does not start with `key.` changes neither what bind puts nor whether it fails |
| StringMaps.KeptConcat | app/be/ugent/caagt/play/binders/StringMap.java:82-84 | the loop keeps the visiting order: the kept keys of two runs of keys are the first run's followed by the second's |
| StringMaps.KeptOfOne | app/be/ugent/caagt/play/binders/StringMap.java:84 | a single key is written exactly when its value is not blank after trimming |
| StringMaps.UnbindFields | app/be/ugent/caagt/play/binders/StringMap.java:82-89 | one parameter `key.k` with the value of `k` for each visited key whose value is not blank after trimming, in visiting order |
| StringMaps.StringMap.Unbind | app/be/ugent/caagt/play/binders/StringMap.java:76-92 | visits every key exactly once and returns "" for an empty map, or else the query string of those parameters |
| StringMaps.CopyMayNotUnbind | app/be/ugent/caagt/play/binders/StringMap.java:38-45 | `isBlank` and `trim().isEmpty()` differ: copying the value "\0" keeps it, and a map holding only that value is one `unbind` cannot write |
| StringMaps.StringMapRoundTrip | app/be/ugent/caagt/play/binders/StringMap.java:60-92 | binding the parsed text of `unbind(key)` never fails and yields exactly the entries whose value is not blank after trimming, for safe keys and ASCII values, in every visiting order |
| Psfs.PSF.constructor | app/be/ugent/caagt/play/binders/PSF.java:29-33 | the PSF refers to the given pager, sorter and filter |
| Psfs.PSF.Empty | app/be/ugent/caagt/play/binders/PSF.java:35-37 | fresh, empty pager, sorter and filter |
| Psfs.PSF.Initial | app/be/ugent/caagt/play/binders/PSF.java:42-44 | a fresh first page of the given size, the given sort and an empty filter |
| Psfs.PSF.Bind | app/be/ugent/caagt/play/binders/PSF.java:58-67 | binds the pager, then the sorter, then the filter, stopping at the first failure with the earlier parts already bound; succeeds exactly when all three succeed |
| Psfs.PSF.Unbind | app/be/ugent/caagt/play/binders/PSF.java:69-79 | the pager's and the sorter's text, followed by the filter's unless that is blank after trimming |
| Psfs.PsfTextIsFieldsText | app/be/ugent/caagt/play/binders/PSF.java:69-79 | the text `unbind(s)` writes is the query string of the pager's, the sorter's and the filter's parameters in that order |
| Psfs.PsfRoundTrip | app/be/ugent/caagt/play/binders/PSF.java:58-79 | binding the parsed text of `unbind(s)` succeeds on all three parts and restores page, sort and non-blank filter entries |
| Psfs.PSF.Previous | app/be/ugent/caagt/play/binders/PSF.java:91-93 | a new PSF with a new pager one page back, sharing sorter and filter |
| Psfs.PSF.Next | app/be/ugent/caagt/play/binders/PSF.java:94-96 | a new PSF with a new pager one page on, sharing sorter and filter |
| Psfs.PSF.Resort | app/be/ugent/caagt/play/binders/PSF.java:97-99 | a new PSF with a new sorter after a click on the column, sharing pager and filter |
| Psfs.PSF.Resize | app/be/ugent/caagt/play/binders/PSF.java:100-102 | a new PSF with a resized new pager, sharing sorter and filter |
| Psfs.PSF.Refilter | app/be/ugent/caagt/play/binders/PSF.java:103-105 | a new PSF on the first page with the new filter, sharing the sorter |
| Psfs.PSF.GetFilterValue | app/be/ugent/caagt/play/binders/PSF.java:110-117 | present exactly when the filter has a value for the key that is not blank, and then it is that value |
| Psfs.PSF.GetFilterValueAsInt | app/be/ugent/caagt/play/binders/PSF.java:122-133 | present exactly when the filter value is present and parses as an `int` after trimming, and then it is that number |
| Psfs.FilterValueAsIntOfNumber | app/be/ugent/caagt/play/binders/PSF.java:122-133 | a filter value written by `Integer.toString(n)` reads back as `n` |
| Psfs.FilterValueAsIntOfPaddedNumber | app/be/ugent/caagt/play/binders/PSF.java:122-133 | a number surrounded by spaces reads back as that number, because the value is trimmed first |
| Forms.ExtractKey | app/views/html/be/ugent/caagt/play/ext/Forms.java:39-52 | present exactly when the name starts with `key[` and has a ']' after it; the result has no ']' and the name starts with `key[` + result + "]" |
| Forms.ExtractFieldName | app/views/html/be/ugent/caagt/play/ext/Forms.java:39-52 | the key of the field name `name[i]` is the text of `i` |
| Forms.StringKeysFromFormData | app/views/html/be/ugent/caagt/play/ext/Forms.java:63-69 | exactly the keys extracted from the raw field names |
| Forms.StringKeysConcat | app/views/html/be/ugent/caagt/play/ext/Forms.java:63-69 | the stream keeps the order of the names: the keys of two runs of names are the first run's keys followed by the second's |
| Forms.StringKeysOfOne | app/views/html/be/ugent/caagt/play/ext/Forms.java:65-66 | one name gives its extracted key, or nothing when `extractKey` gives null |
| Forms.ParseAll | app/views/html/be/ugent/caagt/play/ext/Forms.java:59 | present exactly when every text parses as an `int`, and then the numbers in order |
| Forms.IntKeysFromFormData | app/views/html/be/ugent/caagt/play/ext/Forms.java:55-61 | present exactly when every extracted key parses as an `int`, and then those numbers in order |
| Forms.StringMapKeys | app/views/html/be/ugent/caagt/play/ext/Forms.java:71-93 | strictly ascending in string order and holding exactly the keys of the form data or, when there are none and the form has a backing map, that map's keys |
| Forms.FormDataTakesPriority | app/views/html/be/ugent/caagt/play/ext/Forms.java:71-88 | when the form data holds a field of the map, the backing data does not matter |
| Forms.IntMapKeys | app/views/html/be/ugent/caagt/play/ext/Forms.java:103-126 | absent exactly when a key does not parse; otherwise strictly ascending by absolute value, made of the collected keys, with a key of the same absolute value for each of them, and of the keys sharing an absolute value it is the first one collected that stays |
| Forms.AbsTreeSetHoldsFirsts | app/views/html/be/ugent/caagt/play/ext/Forms.java:123-125 | a set ordered by absolute value, filled in list order, holds every key whose absolute value no earlier key has |
| Forms.FirstOfOppositeKeysStays | app/views/html/be/ugent/caagt/play/ext/Forms.java:122-125 | of `k` and `-k` the one added first stays |
| Forms.IntMapFields | app/views/html/be/ugent/caagt/play/ext/Forms.java:133-137 | present exactly when the keys parse; the names are `mapName[k]` for the keys of `intMapKeys`, and each name reads back as its own key |
| Forms.FieldNames | app/views/html/be/ugent/caagt/play/ext/Forms.java:135 | one name per index, `name[i]` with the index written as `Integer.toString` writes it |
| Forms.FieldNamesRoundTrip | app/views/html/be/ugent/caagt/play/ext/Forms.java:133-137 | the indices of the field names `name[i]` built from a list of indices are that list, in order |
| Forms.ArrayIndices | app/views/html/be/ugent/caagt/play/ext/Forms.java:143-168 | absent exactly when a key does not parse; otherwise ascending, and either `0` up to the length of the backing array when the form data has no keys, or exactly the form data's keys |
| Forms.ArrayFields | app/views/html/be/ugent/caagt/play/ext/Forms.java:176-180 | present exactly when the keys parse; the names `name[i]` for exactly the indices `arrayIndices` returns, in its order: 0 up to the backing length when there are no keys, the parsed keys ascending otherwise |
| Forms.ListIndices | app/views/html/be/ugent/caagt/play/ext/Forms.java:186-210 | as for arrays, with the size of the backing list |
| Forms.ListFields | app/views/html/be/ugent/caagt/play/ext/Forms.java:217-221 | present exactly when the keys parse; the names `name[i]` for exactly the indices `listIndices` returns, in its order: 0 up to the backing length when there are no keys, the parsed keys ascending otherwise |
| Tabs.Tab.constructor | app/be/ugent/caagt/play/util/Tab.java:30-42 | the tab holds title, id, content and active flag |
| Tabs.Tab.Inactive | app/be/ugent/caagt/play/util/Tab.java:44-50 | an inactive tab with the given title, id and content |
| Tabs.Tab.SetActive | app/be/ugent/caagt/play/util/Tab.java:68-70 | the flag is set |
| Tabs.Tab.Activate | app/be/ugent/caagt/play/util/Tab.java:72-76 | every tab of the collection is active exactly when its id is the given one, so the active tabs share one id; only those tabs change |
| Tabs.Tab.IndexOf | app/be/ugent/caagt/play/util/Tab.java:78-85 | the position of the first tab with the id, or -1 exactly when no tab has it |
| JavaLang.ParseInt | app/be/ugent/caagt/play/binders/Pager.java:85-86 | `Integer.parseInt`: present only for digits with an optional `+` or `-` sign; for such text it is present exactly when the signed value fits in an `int`, and it is that value |
| JavaLang.IntToStringRoundTrip | app/be/ugent/caagt/play/binders/Pager.java:85-96 | `Integer.parseInt` reads back every `int` that `unbind` writes in decimal |
| JavaLang.IntToString | app/be/ugent/caagt/play/binders/Pager.java:96 | `"" + n`: canonical decimal text, digits with a leading `-` exactly for a negative number and no leading zero (so `0` is `0`, never `-0` or `00`) |
| JavaLang.Div | app/be/ugent/caagt/play/binders/Pager.java:74 | `int` division truncating toward zero: the magnitude is the quotient of the magnitudes, a positive result needs operands of the same sign and a negative one opposite signs, and `MIN_VALUE / -1` wraps to `MIN_VALUE` |
| JavaLang.JavaAbs | app/views/html/be/ugent/caagt/play/ext/Forms.java:123 | `Math.abs`: the absolute value, except that the smallest `int` stays negative |
| JavaLang.Trim | app/be/ugent/caagt/play/binders/PSF.java:128 | `trim()`: the part of `s` left after removing characters up to U+0020 from both ends; empty exactly when every character is one of those, otherwise neither starting nor ending with one |
| JavaLang.IsWhitespace | app/be/ugent/caagt/play/binders/StringMap.java:41 | `Character.isWhitespace`: never a non-breaking space, and for ASCII only characters that `trim()` also removes |
| JavaLang.IsBlank | app/be/ugent/caagt/play/binders/StringMap.java:41 | `isBlank()`: an ASCII text that is blank is also empty after `trim()` |
| JavaLang.StartsWith | app/be/ugent/caagt/play/binders/StringMap.java:64 | `startsWith(prefix)` holds exactly when the text is the prefix followed by something |
| JavaLang.IndexOf | app/views/html/be/ugent/caagt/play/ext/Forms.java:43 | `indexOf(c)`: the first position of `c`, or -1 exactly when `c` does not occur |
| FormUrlEncoding.Encode | app/be/ugent/caagt/play/binders/Sorter.java:89 | `URLEncoder.encode` yields only unreserved characters, '+' and '%', and leaves names that need no encoding unchanged |
| FormUrlEncoding.DecodeEncode | app/be/ugent/caagt/play/binders/StringMap.java:88 | decoding undoes the encoding of ASCII text |
| FormUrlEncoding.ParseFieldsText | app/be/ugent/caagt/play/binders/StringMap.java:82-91 | parsing the `&`-joined `name=encoded value` sequences of distinct safe names gives each name with its one value, and no other name |
| SortedSets.TreeSetOfTotal | app/views/html/be/ugent/caagt/play/ext/Forms.java:91-92 | under a total order the tree set's list is strictly ascending and holds exactly the added elements |
| SortedSets.TreeSetOfProperties | app/views/html/be/ugent/caagt/play/ext/Forms.java:123-125 | under a strict order the list is strictly ascending, holds only added elements, and holds an element equivalent to each one added |
| SortedSets.InsertProperties | app/views/html/be/ugent/caagt/play/ext/Forms.java:124 | `TreeSet.add` into an ascending set keeps it ascending, keeps every element, adds nothing but the new one, and leaves an element equivalent to it |
| SortedSets.InsertNew | app/views/html/be/ugent/caagt/play/ext/Forms.java:124 | `TreeSet.add` of an element equivalent to none in the set adds that element itself |
| SortedSets.TreeSetOfKeepsFirst | app/views/html/be/ugent/caagt/play/ext/Forms.java:123-125 | under a strict order, an element not equivalent to any earlier one is in the set built from the list |
| SortedSets.StringOrderIsTotal | app/views/html/be/ugent/caagt/play/ext/Forms.java:91 | the natural order of strings is a strict total order |
| SortedSets.LexLessIrreflexive | app/views/html/be/ugent/caagt/play/ext/Forms.java:91 | `compareTo` never puts a string before itself |
| SortedSets.LexLessTransitive | app/views/html/be/ugent/caagt/play/ext/Forms.java:91 | `compareTo` order is transitive |
| SortedSets.LexLessTotal | app/views/html/be/ugent/caagt/play/ext/Forms.java:91 | of two different strings one comes before the other |
| SortedSets.IntOrderIsTotal | app/views/html/be/ugent/caagt/play/ext/Forms.java:166 | the natural order of integers is a strict total order |
| SortedSets.AbsOrderIsStrict | app/views/html/be/ugent/caagt/play/ext/Forms.java:123 | ordering by absolute value is irreflexive and transitive, so the tree set's properties under a strict order apply to it |

## Left out

- `javascriptUnbind` of each binder returns null in the source. It is not modelled.
- The trivial getters are not modelled:
  - `getPageNr` and `getPageSize`
  - `getSortColumn` and `isAscending`
  - `getFilter`, `getSorter` and `getPager`
  - `isActive`, `getTitle`, `getId` and `getContent`
  Each returns a field that the model exposes directly.
- `Forms.field` (Forms.java:35-37) builds a Play `Form.Field` with no form. It is framework construction with no logic, and is not modelled.
- The `*Fields` helpers return the field names `name[i]` instead of the `Form.Field` objects that `form.field(...)` looks up.
- Play's `Form` is not modelled:
  - The raw field names are a sequence, in the order the key set visits them.
  - The data backing the form is an optional key list or an optional length. It is absent when the form has no value, the property is not readable, or it is null.
  - The `BeanWrapper` reflection and the casts behind it are not modelled.
- Forms.ExtractKey: requires that the key name has no ']'. With one, Java's `substring` would throw, because the first ']' lies before the key's end.
- Forms.IntKeysFromFormData: an index that is not an integer makes Java throw `NumberFormatException` out of the helper. The model returns an absent result instead, and so do the helpers built on it.
- Forms.ArrayIndices: a property that holds something other than an array, or a list for `ListIndices`, makes Java throw `ClassCastException`. This is not modelled.
- JavaLang.ParseInt: accepts ASCII digits only. Java's `Integer.parseInt` also accepts digits from other Unicode scripts.
- JavaLang.IsWhitespace: follows `Character.isWhitespace` for the code points listed. It does not consult Java's Unicode tables, so a future Unicode version could differ.
- SortedSets.LexLess: compares whole characters, while `String.compareTo` compares UTF-16 code units. The two differ only for characters beyond U+FFFF.
- FormUrlEncoding.DecodeEncode: proved for ASCII text only. The reference decoder takes each `%XY` byte as one character, while the framework decodes UTF-8 sequences. Every round trip therefore assumes ASCII values and column names, and parameter names made of unreserved characters.
- The query-string parser is a reference model of how the framework turns a query string into request parameters. The framework's own parser is not part of this model.
- Pagers.Page.Resize: requires a size other than 0, because Java throws `ArithmeticException` there. Psfs.PSF.Resize inherits the same requirement.
- StringMaps.StringMap.Unbind: requires `CanUnbind`. A map whose entries are all blank after trimming makes Java's `builder.substring(1)` throw `StringIndexOutOfBoundsException`. Psfs.PSF.Unbind inherits the same requirement.
- Sorters.Sorter.Empty: Java leaves the column null, which the model writes as "". With a null column `getCellClass` and `getColumnClass` would throw `NullPointerException`, `unbind` would write `key=-null`, and `forColumn` would start a new column.
- Java's `HashMap` iteration order is unspecified. The model picks entries in any order, and `unbind` reports the order it used as a ghost result. Concurrent modification of the maps is not modelled.
- `Tab`'s titles and contents are `Html` or `String` in the source. In the model they are strings, and HTML rendering is not modelled.
- Null maps, null values and null ids are not modelled, apart from the absent values of the request parameters and of the filter.
