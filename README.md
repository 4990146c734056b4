# convalidur, modelled in Dafny

convalidur is a chainable field validator written in Go. A `Validator` wraps
one failure sink, a map from field name to the ordered list of failures of
that field. Every checker created from the validator (`Str`, `Int`, `Bytes`,
`Bool`, `Slice`, `Map`) holds a reference to that sink. Each check looks at
the checker's value. On failure it appends a record to the list of the
checker's field, then returns the checker itself so that calls chain.

The repository holds three historical variants that would not compile
together. Each Go file is one Dafny module here:

- `valider` (valider.go, string.go, int.go, bytes.go, map.go): records carry a
  kind, a code and, in the string and byte checks, the operand (`ShouldBe`).
- slice.go and bool.go belong to package `convalidur`, but they append
  error-and-code pairs (`Err{err, code}`) as map.go does. Their checkers
  (`SliceCheck`, `BoolCheck`) are therefore built from `Valider.Validator`
  and write kind-and-code records.
- `convalidur` (convalidur.go): records are message strings. One fixed
  message belongs to each kind, so a record is its kind.
- `govalidator` (validator.go): string and integer checks in early-return
  style, and `Slice`/`Map` checkers that are stubs.

Shared modules:

- `Sink` holds the failure table, the `Errors` class whose methods append in
  place, and the record kinds.
- `Dyn` stands in for Go's `reflect` dispatch with a closed `Value` datatype.
  A subject is reached through at most one pointer dereference. The allowed
  set passed to `In` is a `Param` of elements of known kinds.
- `Foreign` turns `time.Parse` and `regexp.MatchString` into parameters of
  function type.
- `Decimal` renders integers in decimal, as `strconv.Itoa` does.
- `Containment` specifies the recursive containment visitor `in`.
- `DateConformance` specifies the recursive date visitor `date`.

Each check method is proved against a specification function of the value
it inspects. Its `ensures` clause states the new sink as
`Appended(old(sink), field, records)`. The recursive visitors are methods
that move the checker's `value` field down the subject, as the source does,
and each is proved to append exactly the records of its specification
function. Lemmas then state what those records mean: when they are empty,
how many there are, of which kind, and how the variants differ.

The source's operator precedence is kept as written. Go's `&&` binds tighter
than `||`, so `Str.Range` in string.go and convalidur.go fails on
`(value != "" && len < min) || len > max`. An empty value therefore fails
when `max < 0`. validator.go brackets the same test, and
`Govalidator.RangeReadings` proves that the two readings differ exactly there.

A family mismatch in the containment visitor (an integer in the allowed set
of a string leaf, say) is sometimes described as recording only
`bad_parameter`. The code does more. It records `bad_parameter`, compares
the element as `""` or `0`, and then records `in` when nothing matched
(slice.go:109-180). The model follows the code.

## Model

| member | source | states |
|---|---|---|
| Sink.Appended | valider.go:47-49 | appending to a field extends that field's list at the end, treats an absent key as an empty list, and leaves every other field untouched |
| Sink.AppendedTwice | valider.go:47-49 | two appends to one field equal one append of the concatenation, so records accumulate in call order |
| Sink.AppendedKeepsNoEmptyLists | valider.go:48 | appending keeps the invariant that a field is present exactly when it has at least one record |
| Sink.AppendedTimesCount | valider.go:47-49 | n appends of one record add exactly n records at the end, with no deduplication, and other fields are unchanged |
| Sink.Errors.Add | valider.go:47-49 | `Add` appends exactly one record without operand at the end of its field's list |
| Sink.Errors.Append | string.go:20 | the in-place append every check performs: one record at the end of the field's list |
| Dyn.Deref | slice.go:19-21 | a subject given directly is inspected as is; a pointer is followed once, and a nil pointer (or one to an invalid value) becomes the invalid value |
| Dyn.IsNil | slice.go:38 | a non-nil slice or map is never nil, and a nil slice or nil map always is; the precondition is where `IsNil` does not panic |
| Dyn.Length | map.go:41 | a slice's or array's length is its element count, a map's its entry count, a string's its byte count, and nil containers have length 0 |
| Valider.Code | valider.go:24-38 | every kind has a non-empty code of lower-case letters and underscores |
| Valider.CodeRoundTrip | valider.go:24-38 | every kind's code reads back as that kind |
| Valider.CodesDistinct | valider.go:24-38 | two kinds share a code iff they are the same kind, so a code identifies its failure |
| Valider.KindOfCodeOnlyCodes | valider.go:24-38 | a string reads as some kind iff it is one of the twelve codes |
| Valider.Validator.New | valider.go:78-80 | `New` wraps the given sink itself, not a copy |
| Decimal.Digits | int.go:23 | the rendering of a natural number is a non-empty string of decimal digits |
| Decimal.Itoa | int.go:23 | the rendering is non-empty, starts with a minus sign exactly when the integer is negative, and is decimal digits after that |
| Decimal.ItoaRoundTrip | int.go:23 | the rendering is an optional minus followed by digits, and reading it back gives the integer |
| Decimal.ItoaLength | int.go:23 | the rendering's length is the digit count of the magnitude, plus one for a minus sign |
| Decimal.DigitsCount | int.go:23 | a number n with 10^(k-1) <= n < 10^k renders in exactly k digits |
| Decimal.DigitsLength | int.go:23 | a number is below 10 to the power of its digit count, and at least 10 to that count minus one when it has several digits |
| Decimal.DigitsRoundTrip | int.go:23 | reading back the digits of n gives n |
| StrCheck.RegExpRecords | string.go:89-98 | at most one record: none for an empty value or a match, BadParameter for a pattern that does not compile, NotMatched for a non-match, each iff its condition and each carrying the pattern |
| StrCheck.EmptyValueSkips | string.go:18-98 | the empty string fails `Required`, passes every other check, and fails `Range` iff max < 0 |
| StrCheck.RangeOnNonEmpty | string.go:46-52 | on a non-empty value `Range` fails iff the length lies outside [min, max] |
| StrCheck.EqualNotEqualPartition | string.go:25-37 | on a non-empty value exactly one of `Equal` and `NotEqual` fails |
| StrCheck.LenIsPointRange | string.go:39-52 | on a non-empty value `Len(n)` fails iff `Range(n, n)` fails |
| StrCheck.InIsEveryEqualFailing | string.go:54-64 | `In` fails iff the value is non-empty and `Equal` fails against every listed value; an empty list fails every non-empty value |
| StrCheck.EqualIsSingletonIn | string.go:25-30 | `Equal(eq)` fails iff `In(eq)` fails |
| StrCheck.Str.constructor | string.go:14-16 | the checker writes into the validator's own sink |
| StrCheck.Str.Required | string.go:18-23 | appends exactly one Required record iff the value is empty; returns the receiver |
| StrCheck.Str.Equal | string.go:25-30 | appends one NotEqual record carrying eq iff the value is non-empty and differs from eq |
| StrCheck.Str.NotEqual | string.go:32-37 | appends one NotEqual record carrying eq iff the value is non-empty and equals eq |
| StrCheck.Str.Len | string.go:39-44 | appends one Len record carrying num iff the value is non-empty and its byte length is not num |
| StrCheck.Str.Range | string.go:46-52 | appends one OutRange record carrying [min, max] iff (non-empty and length < min) or length > max |
| StrCheck.Str.In | string.go:54-64 | the loop stops at the first equal listed value; appends one In record carrying the whole list iff the value is non-empty and not listed |
| StrCheck.Str.Date | string.go:66-73 | appends one Date record carrying the layout iff the value is non-empty and does not parse |
| StrCheck.Str.Email | string.go:75-80 | skips the empty value, else appends the records of `RegExp` with the fixed e-mail pattern |
| StrCheck.Str.URL | string.go:82-87 | skips the empty value, else appends the records of `RegExp` with the fixed URL pattern |
| StrCheck.Str.RegExp | string.go:89-98 | appends exactly the records of `RegExpRecords` |
| IntCheck.ZeroSkips | int.go:15-41 | zero fails `Required` and passes `Len`, `Equal` and `Range` |
| IntCheck.LenCountsDigits | int.go:22-27 | a non-zero value of k digits fails `Len(num)` iff num differs from k, plus one for a negative value |
| IntCheck.EqualIsPointRange | int.go:29-41 | `Equal(eq)` fails iff `Range(eq, eq)` fails |
| IntCheck.Int.constructor | int.go:11-13 | the checker writes into the validator's own sink |
| IntCheck.Int.Required | int.go:15-20 | appends one Required record iff the value is 0 |
| IntCheck.Int.Len | int.go:22-27 | appends one Len record iff the value is non-zero and its decimal rendering is not num long |
| IntCheck.Int.Equal | int.go:29-34 | appends one NotEqual record iff the value is non-zero and differs from eq |
| IntCheck.Int.Range | int.go:36-41 | appends one OutRange record iff the value is non-zero and outside [min, max] |
| BytesCheck.EmptySkips | bytes.go:15-46 | an empty value fails `Required` and passes `Len`, `Range` and `In` |
| BytesCheck.LenIsPointRange | bytes.go:22-34 | `Len(n)` fails iff `Range(n, n)` fails |
| BytesCheck.InMembership | bytes.go:36-46 | a non-empty value passes `In` over a list holding it and fails over an empty list |
| BytesCheck.Bytes.constructor | bytes.go:11-13 | the checker writes into the validator's own sink |
| BytesCheck.Bytes.Required | bytes.go:15-20 | appends one Required record iff the value has no bytes |
| BytesCheck.Bytes.Len | bytes.go:22-27 | appends one Len record carrying num iff the value is non-empty and its length is not num |
| BytesCheck.Bytes.Range | bytes.go:29-34 | appends one OutRange record carrying [min, max] iff the value is non-empty and its length is outside [min, max] |
| BytesCheck.Bytes.In | bytes.go:36-46 | the loop stops at the first candidate equal byte for byte; a non-empty value matching none appends one record of kind OutRange carrying the candidates |
| BoolCheck.EqualPartition | bool.go:13-18 | exactly one of `Equal(true)` and `Equal(false)` fails for any value, false included, and `Equal(value)` passes |
| BoolCheck.Bool.constructor | bool.go:9-11 | the checker writes into the validator's own sink |
| BoolCheck.Bool.Equal | bool.go:13-18 | appends one NotEqual record iff the value differs from v, with no zero-value skip |
| Containment.BadParams | slice.go:113-131 | one scan of the allowed elements appends only BadParameter records, at most one per element |
| Containment.LeafRecords | slice.go:109-180 | a string or signed-integer leaf appends only BadParameter and `in` records, and the `in` record appears exactly when the parameter is not a slice or no element matched |
| Containment.LeafCheck | slice.go:109-190 | a non-container appends only the visitor's three kinds |
| Containment.Visit | slice.go:91-194 | the visitor appends only In, BadParameter and Unsupported records |
| Containment.VisitAll | slice.go:95-101 | the loop over elements appends only the visitor's kinds |
| Containment.VisitValues | slice.go:102-108 | the loop over map keys appends only the visitor's kinds |
| Containment.Leaves | slice.go:91-108 | the values the visitor stops at are never slices, arrays or maps |
| Containment.VisitAllConcat | slice.go:98-101 | there is no early exit: the records of a sequence are the records of its parts, in order |
| Containment.EveryElementVisited | slice.go:98-101 | element i's records appear whole and in place between those of the elements before and after it |
| Containment.MapVisitedAsValues | slice.go:102-108 | a map is visited as the sequence of its values; keys are never checked |
| Containment.VisitFlattens | slice.go:91-108 | visiting a nested subject appends what visiting the flat sequence of its leaves appends |
| Containment.VisitAllFlattens | slice.go:95-101 | the same flattening for a sequence of subjects |
| Containment.VisitValuesFlattens | slice.go:102-108 | the same flattening for the values of a map |
| Containment.AcceptedNoBadParams | slice.go:116-127 | an allowed set of the leaf's own family appends no BadParameter |
| Containment.AllRejectedBadParams | slice.go:125-127 | when every element is of the wrong kind, each appends exactly one BadParameter |
| Containment.LeavesOfFamily | slice.go:109-137 | leaves of one family against a set of that family append only NotIn records, one per unmatched leaf |
| Containment.FamilyContainment | slice.go:91-137 | a nested subject of one family appends exactly one NotIn per unmatched leaf and nothing else |
| Containment.NoMissesAllFound | slice.go:128-137 | there are no misses iff every leaf is found in the allowed set |
| Containment.FamilyContainmentValid | slice.go:91-137 | a nested subject of one family passes iff every leaf is found |
| Containment.NotSeqParameter | slice.go:132-137 | a parameter that is not a slice appends BadParameter followed by NotIn, whatever the leaf |
| Containment.IntLeafAgainstStrings | slice.go:138-180 | an integer leaf against plain strings appends one BadParameter per element, then NotIn unless the leaf is 0 and the set is non-empty |
| Containment.StrLeafAgainstInts | slice.go:109-137 | a string leaf against plain integers appends one BadParameter per element, then NotIn unless the leaf is empty and the set is non-empty |
| Containment.EmptyStringFound | slice.go:115-130 | an empty-string leaf is found as soon as one element holds no string |
| Containment.WidthsUnify | slice.go:138-173 | integers of any width, plain or in an interface, compare by value |
| Containment.NonComparableLeaves | slice.go:181-190 | unsigned, float, bool and interface leaves append nothing; any other non-container appends one Unsupported |
| Containment.EmptyContainersVacuous | slice.go:95-108 | empty and nil slices, arrays and maps append nothing |
| DateConformance.DateVisit | map.go:98-114 | `date` appends only Date and Unsupported records |
| DateConformance.DateAll | map.go:100-105 | the loop over elements appends only Date and Unsupported records |
| DateConformance.DateValues | map.go:87-90 | the loop over map values appends only Date and Unsupported records |
| DateConformance.MapDate | map.go:79-96 | `Date` appends only Date and Unsupported records |
| DateConformance.DateValidIffLeavesConform | map.go:98-114 | a value passes `date` iff every value it stops at is a string that parses under the layout |
| DateConformance.DateAllValidIffLeavesConform | map.go:100-105 | a sequence passes iff every leaf it reaches conforms |
| DateConformance.DateAtMostOne | map.go:98-114 | on a value with at most one element at every level, `date` appends at most one record |
| DateConformance.DateStringLeaf | map.go:106-109 | a string leaf appends one Date record iff it does not parse, otherwise nothing |
| DateConformance.DateOtherLeaf | map.go:110-111 | a leaf that is neither a string nor a slice or array, nested maps and integers included, appends exactly one Unsupported |
| DateConformance.SingleEntryStringDate | map.go:79-96 | a single-entry map whose value is a string appends one Date record iff the value does not parse |
| DateConformance.MapDateAtMostOne | map.go:79-114 | a map of at most one single-descent entry appends at most one record |
| DateConformance.MapDateVacuous | map.go:84 | empty and nil maps and slices append nothing |
| SliceCheck.RequiredRecords | slice.go:17-31 | one Required record iff the subject is a slice or array with no elements, one Unsupported iff it is neither, nothing otherwise |
| SliceCheck.RangeRecords | slice.go:33-50 | nothing for a nil subject; one OutRange iff a non-nil slice's length is outside [min, max]; one Unsupported iff a non-nil subject is not a slice |
| SliceCheck.LenRecords | slice.go:73-89 | nothing for a nil subject; one Len iff a non-nil slice's length is not le; one Unsupported iff a non-nil subject is not a slice |
| SliceCheck.InRecords | slice.go:52-71 | nothing for a nil subject; for a slice, exactly the records of the visitor over its elements; one Unsupported otherwise |
| SliceCheck.LenIsPointRange | slice.go:33-89 | `Len(n)` records as often as `Range(n, n)`, and Unsupported in the same cases |
| SliceCheck.InVacuous | slice.go:52-71 | a nil or empty subject is vacuously in any allowed set |
| SliceCheck.StringsAgainstStrings | valider_test.go:59-74 | a slice of strings against plain strings appends one In record per unlisted string and nothing else |
| SliceCheck.NestedScenarios | valider_test.go:76-101 | a slice of string slices passes; a slice of maps is checked on its values only, in either enumeration order |
| SliceCheck.TwoEntries | slice.go:102-108 | a two-entry map appends the records of its two values, in enumeration order |
| SliceCheck.Slice.constructor | slice.go:13-15 | the checker writes into the validator's own sink |
| SliceCheck.Slice.Required | slice.go:17-31 | appends exactly `RequiredRecords` of the dereferenced subject |
| SliceCheck.Slice.Range | slice.go:33-50 | appends exactly `RangeRecords` of the dereferenced subject |
| SliceCheck.Slice.Len | slice.go:73-89 | appends exactly `LenRecords` of the dereferenced subject |
| SliceCheck.Slice.In | slice.go:52-71 | the loop visits every element and appends exactly `InRecords` of the dereferenced subject |
| SliceCheck.Slice.Visit | slice.go:91-194 | the recursive `in`, moving `value` down the subject, appends exactly `Containment.Visit` of the value it started at |
| SliceCheck.Slice.VisitElems | slice.go:95-101 | the loop over a slice's elements appends exactly their records, in order |
| SliceCheck.Slice.VisitMapValues | slice.go:102-108 | the loop over a map's keys appends exactly the records of the values, in order |
| SliceCheck.Slice.StrLeaf | slice.go:109-137 | a string leaf appends exactly `LeafRecords` |
| SliceCheck.Slice.ScanStrings | slice.go:113-131 | the scan returns whether the leaf was found and appends one BadParameter per rejected element |
| SliceCheck.Slice.StrElem | slice.go:114-130 | one allowed element against a string leaf: a hit iff the leaf equals the element's string, or "" when it holds none; one BadParameter iff the element is a plain integer or of another kind |
| SliceCheck.Slice.IntLeaf | slice.go:138-180 | an integer leaf appends exactly `LeafRecords` |
| SliceCheck.Slice.ScanInts | slice.go:142-174 | the scan returns whether the leaf was found and appends one BadParameter per rejected element |
| SliceCheck.Slice.IntElem | slice.go:143-173 | one allowed element against an integer leaf: a hit iff the leaf equals the element's integer, or 0 when it holds none; one BadParameter iff the element holds no signed integer |
| MapCheck.RequiredRecords | map.go:20-34 | one Required record iff the subject is a map without entries, one Unsupported iff it is not a map, nothing otherwise |
| MapCheck.Missing | map.go:44-48 | only NotFound records, at most one per listed key |
| MapCheck.KeysRecords | map.go:36-54 | nothing for an empty subject; for a non-empty map the NotFound records of the listed keys; one Unsupported for a non-empty non-map |
| MapCheck.RangeRecords | map.go:56-73 | nothing for an empty subject; one OutRange iff a non-empty map's entry count is outside [min, max]; one Unsupported iff a non-empty subject is not a map |
| MapCheck.Absent | map.go:44-48 | every key reported absent is listed and missing from the map |
| MapCheck.MissingCounts | map.go:44-48 | one NotFound per occurrence of an absent key, and none iff every listed key is present |
| MapCheck.MissingConcat | map.go:44-48 | listing keys in two calls records what one call with both lists records |
| MapCheck.TestScenarios | valider_test.go:104-137 | an empty map fails `Required` and a 1-entry map passes it; a 1-entry map fails `Range(3, 4)` and a 3-entry map passes it |
| MapCheck.Map.constructor | map.go:16-18 | the checker writes into the validator's own sink |
| MapCheck.Map.Required | map.go:20-34 | appends exactly `RequiredRecords` of the dereferenced subject |
| MapCheck.Map.Keys | map.go:36-54 | the loop over the listed keys appends exactly `KeysRecords` |
| MapCheck.Map.Contains | map.go:45 | the lookup reports whether the map has an entry under the key |
| MapCheck.Map.Range | map.go:56-73 | appends exactly `RangeRecords` of the dereferenced subject |
| MapCheck.Map.In | map.go:75-77 | returns the receiver and changes nothing |
| MapCheck.Map.Date | map.go:79-96 | the loop, overwriting `value` as it goes, appends exactly `MapDate` of the dereferenced subject |
| MapCheck.Map.VisitDate | map.go:98-114 | the recursive `date` appends exactly `DateVisit` of the value it started at |
| Convalidur.RegExpRecords | convalidur.go:111-120 | the same outcomes as the newer `RegExp`, record for record, without the pattern as operand |
| Convalidur.SliceRangeRecords | convalidur.go:188-203 | with no nil guard: one OutRange iff a slice or array's length is outside [min, max], one Unsupported iff the subject is neither |
| Convalidur.SliceInRecords | convalidur.go:205-222 | with no nil guard: the visitor's records for a slice or array, one Unsupported otherwise |
| Convalidur.NilGuardDifference | convalidur.go:188-222 | the two variants agree off nil; a nil slice fails the older `Range` iff min > 0 or max < 0 and passes the newer one; a nil map records Unsupported in the older only |
| Convalidur.ArraysVisited | convalidur.go:205-222 | arrays are visited element by element |
| Convalidur.Validator.New | convalidur.go:33-35 | `New` wraps the given sink itself |
| Convalidur.Str.constructor | convalidur.go:43-45 | the checker writes into the validator's own sink |
| Convalidur.Str.Required | convalidur.go:47-52 | appends one Required record iff the value is empty |
| Convalidur.Str.Equal | convalidur.go:54-59 | appends one NotEqual record iff the value is non-empty and differs from eq |
| Convalidur.Str.Len | convalidur.go:61-66 | appends one Len record iff the value is non-empty and its length is not the argument |
| Convalidur.Str.Range | convalidur.go:68-74 | appends one OutRange record iff (non-empty and length < min) or length > max |
| Convalidur.Str.In | convalidur.go:76-86 | appends one In record iff the value is non-empty and not listed |
| Convalidur.Str.Date | convalidur.go:88-95 | appends one Date record iff the value is non-empty and does not parse |
| Convalidur.Str.Email | convalidur.go:97-102 | skips the empty value, else appends the records of `RegExp` with the e-mail pattern |
| Convalidur.Str.URL | convalidur.go:104-109 | skips the empty value, else appends the records of `RegExp` with the URL pattern |
| Convalidur.Str.RegExp | convalidur.go:111-120 | appends exactly `RegExpRecords` |
| Convalidur.Int.constructor | convalidur.go:128-130 | the checker writes into the validator's own sink |
| Convalidur.Int.Required | convalidur.go:132-137 | appends one Required record iff the value is 0 |
| Convalidur.Int.Len | convalidur.go:139-144 | appends one Len record iff the value is non-zero and its rendering is not num long |
| Convalidur.Int.Equal | convalidur.go:146-151 | appends one NotEqual record iff the value is non-zero and differs from eq |
| Convalidur.Int.Range | convalidur.go:153-158 | appends one OutRange record iff the value is non-zero and outside [min, max] |
| Convalidur.Slice.constructor | convalidur.go:168-170 | the checker writes into the validator's own sink |
| Convalidur.Slice.Required | convalidur.go:172-186 | appends the same records as the newer `Slice.Required` |
| Convalidur.Slice.Range | convalidur.go:188-203 | appends exactly `SliceRangeRecords` of the dereferenced subject |
| Convalidur.Slice.In | convalidur.go:205-222 | appends exactly `SliceInRecords` of the dereferenced subject |
| Convalidur.Slice.Visit | convalidur.go:224-327 | the recursive `in` appends exactly `Containment.Visit` of the value it started at |
| Convalidur.Slice.VisitElems | convalidur.go:228-234 | the loop over elements appends exactly their records |
| Convalidur.Slice.VisitMapValues | convalidur.go:235-241 | the loop over map keys appends exactly the records of the values |
| Convalidur.Slice.StrLeaf | convalidur.go:242-270 | a string leaf appends exactly `LeafRecords` |
| Convalidur.Slice.ScanStrings | convalidur.go:246-264 | the scan returns whether the leaf was found and appends one BadParameter per rejected element |
| Convalidur.Slice.StrElem | convalidur.go:247-263 | one allowed element against a string leaf, as the newer variant scans it |
| Convalidur.Slice.IntLeaf | convalidur.go:271-313 | an integer leaf appends exactly `LeafRecords` |
| Convalidur.Slice.ScanInts | convalidur.go:275-307 | the scan returns whether the leaf was found and appends one BadParameter per rejected element |
| Convalidur.Slice.IntElem | convalidur.go:276-306 | one allowed element against an integer leaf, as the newer variant scans it |
| Convalidur.Map.constructor | convalidur.go:337-339 | the checker writes into the validator's own sink |
| Convalidur.Map.Required | convalidur.go:341-355 | appends the same records as the newer `Map.Required` |
| Convalidur.Map.Range | convalidur.go:357-375 | returns early on an empty subject, else appends `RangeRecords` as the newer `Map.Range` |
| Convalidur.Map.In | convalidur.go:377-379 | returns the receiver and changes nothing |
| Convalidur.Map.Date | convalidur.go:381-399 | returns early on an empty subject, else appends exactly `MapDate` |
| Convalidur.Map.VisitDate | convalidur.go:401-417 | the recursive `date` appends exactly `DateVisit` of the value it started at |
| Govalidator.RegexpRecords | validator.go:118-128 | nothing for an empty value, a match or a pattern that does not compile; one NotMatched record iff a non-empty value does not match |
| Govalidator.RangeReadings | validator.go:71-79 | the bracketed `Range` fails only where the unbracketed one does, and they differ exactly on the empty value with max < 0 |
| Govalidator.RegexpVariants | validator.go:118-128 | it records as many records as the newer `RegExp` unless the pattern does not compile, where only the newer one records BadParameter |
| Govalidator.Validator.New | validator.go:30-32 | `New` wraps the given sink itself |
| Govalidator.SharedSink | validator.go:40-42 | checkers created from one validator share its sink: an empty string and a zero checked under one field leave two Required records, in call order |
| Govalidator.Str.constructor | validator.go:40-42 | the checker holds the validator itself |
| Govalidator.Str.Required | validator.go:44-49 | appends one Required record iff the value is empty |
| Govalidator.Str.Equal | validator.go:51-59 | returns early on empty, else appends one NotEqual record iff the value differs from eq |
| Govalidator.Str.Len | validator.go:61-69 | returns early on empty, else appends one Len record iff the length is not the argument |
| Govalidator.Str.Range | validator.go:71-79 | returns early on empty, else appends one OutRange record iff the length is outside [min, max] |
| Govalidator.Str.In | validator.go:81-92 | returns early on empty or on the first equal listed value, else appends one In record |
| Govalidator.Str.Date | validator.go:94-102 | returns early on empty, else appends one Date record iff the value does not parse |
| Govalidator.Str.Email | validator.go:104-109 | skips the empty value, else appends the records of `Regexp` with the placeholder e-mail pattern |
| Govalidator.Str.URL | validator.go:111-116 | skips the empty value, else appends the records of `Regexp` with the placeholder URL pattern |
| Govalidator.Str.Regexp | validator.go:118-128 | appends exactly `RegexpRecords` |
| Govalidator.Int.constructor | validator.go:136-138 | the checker holds the validator itself |
| Govalidator.Int.Required | validator.go:140-145 | appends one Required record iff the value is 0 |
| Govalidator.Int.Len | validator.go:147-155 | returns early on 0, else appends one Len record iff the decimal rendering is not num long |
| Govalidator.Int.Equal | validator.go:157-165 | returns early on 0, else appends one NotEqual record iff the value differs from eq |
| Govalidator.Int.Range | validator.go:167-175 | returns early on 0, else appends one OutRange record iff the value is outside [min, max] |
| Govalidator.Slice.constructor | validator.go:183-185 | the checker holds the validator, the subject and the field |
| Govalidator.Slice.Required | validator.go:187-189 | a stub returning the receiver without touching the sink |
| Govalidator.Slice.Range | validator.go:191-193 | a stub returning the receiver without touching the sink |
| Govalidator.Slice.Contains | validator.go:195-197 | a stub returning the receiver without touching the sink |
| Govalidator.Map.constructor | validator.go:205-207 | the checker holds the validator, the subject and the field |
| Govalidator.Map.Required | validator.go:209-211 | a stub returning the receiver without touching the sink |
| Govalidator.Map.Range | validator.go:213-215 | a stub returning the receiver without touching the sink |
| Govalidator.Map.Contains | validator.go:217-219 | a stub returning the receiver without touching the sink |
| Govalidator.Map.Date | validator.go:221-223 | a stub returning the receiver without touching the sink |

## Left out

- float.go: float64 comparisons and the length of `strconv.FormatFloat` output are floating-point numerics.
- `Errors.String` (valider.go:51-66): text formatting through `fmt` over Go's randomised map iteration order.
- The internals of `time.Parse` and of Go's regular expressions. They are library calls and appear as function-typed parameters (`TimeParse`, `MatchString`). The e-mail and URL patterns are kept only as constant texts.
- The `reflect` machinery, replaced by the closed `Value` datatype. Where `reflect` would panic, the model requires the inputs that avoid the panic: `IsNil` on arrays and non-reference kinds (slice.go:38, 57, 78), `Len` on values that are not containers (map.go:41, 61, 84; convalidur.go:362, 386), and `MapIndex` with a string key on a map whose keys are not strings (map.go:45).
- SliceCheck.Slice.Range: an array subject is excluded by its precondition, because `IsNil` panics on it. SliceCheck.Slice.Len and SliceCheck.Slice.In are excluded for the same reason.
- MapCheck.Map.Keys: with a non-empty key list, a map whose keys are not all strings is excluded by the precondition. Go's lookup panics on keys of another concrete type. A map with interface keys, where the lookup would succeed, is excluded as well, because an interface value carries no content in this model.
- MapCheck.Map.Date: `Date` and `date` overwrite the value they loop over (map.go:88, 103; convalidur.go:392, 406). With several entries, or slices longer than one, the source panics or reads the wrong value. The model requires maps of at most one entry and slices of at most one element at every level, where the source's reads are well defined.
- Convalidur.Map.Date: restricted as MapCheck.Map.Date, for the same reason.
- MapCheck.Map.VisitDate and Convalidur.Map.VisitDate: restricted to values with at most one element at every slice level, for the same reason.
- The order of map enumeration. A map is a sequence of entries in an arbitrary fixed order. Properties that order would change are stated as counts or for both orders.
- SliceCheck.Slice.In, MapCheck.Map.Date and the other visitor methods leave the scratch field `value` pointing somewhere inside the subject. The model does not state where.
- The `fmt.Printf` call in validator.go:123: console output is not modelled, so that branch records nothing.
- The message texts and error values. A record is its kind, plus the operand where the source stores one (`ShouldBe`). In the string-message variants the message is a fixed function of the kind.
- Sink.Errors.Add: it takes a kind rather than a free error value and code. The source's checks never call `Errors.Add` (valider.go:47-49); the model uses it to stand for the message appends of convalidur.go and validator.go, where a message is a fixed function of its kind.
- Strings: a Dafny `char` stands for one byte of the Go string, so `len` is a byte count only under that encoding, and non-ASCII text must be written out byte by byte.
- Channels: `Value` has no channel kind, although `reflect`'s `IsNil` and `Len` accept one. A channel subject of SliceCheck.Slice.Range, SliceCheck.Slice.Len, SliceCheck.Slice.In, MapCheck.Map.Keys, MapCheck.Map.Range, MapCheck.Map.Date, Convalidur.Map.Range or Convalidur.Map.Date is not modelled.
- IntCheck.Int.Len: Go's `int` is 64 bits wide, but the model's integers are unbounded. `strconv.Itoa` of the smallest 64-bit integer is not singled out.
- Concurrency: the sink is not synchronised, and concurrent use is outside the model.
