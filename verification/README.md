# Skihat framework core in Dafny

A model of the behaviour that the Skihat PHP framework's unit tests pin down, in four parts:

- **Model** (`model.dfy`, module `Models`): a record holding the properties it was built with, the current properties, and a map from field to error record. The operations are `changeProps`, `addError`, `error`, `allErrors` and `clearErrors`.
- **Global helpers** (`core.dfy`, module `Core`):
  - The identifier case conversions `camel_upper`, `camel_lower` and `pascal`.
  - The PHP array helpers `array_key_value`, `array_key_filter`, `array_append` and `array_join_str`.
- **The `Skihat` kernel** (`skihat.dfy`, module `Skihat`): the configuration registry (`write`/`read`) and `using`, which derives a class name from a dotted path.
- **`ApplicationRequest`** (`request.dfy`, module `Requests`): the query and form parameters of one request, plus `module($default)`.

PHP arrays are ordered association lists (`arrays.dfy`, module `Arrays`):
- Each array is a sequence of `(Key, V)` entries in insertion order.
- No key appears twice.
- Keys are `IntKey(i)` or `StrKey(s)`.
- `$a[$k] = $v` is `Put`, `$a[] = $v` is `Push`, and `$a[$k]` is `Lookup`.

Case mapping is ASCII only (`ascii.dfy`, module `Ascii`).

All state is a value. An operation that changes a model, a registry, a request or an array returns the changed value. It does not mutate shared state or its argument.

The model fixes the framework's behaviour only as far as its unit tests do. Where they leave a behaviour open, the model makes a choice. These choices are policies, not facts taken from the source:

- A missing key, field, error or registry slot reads as `None`.
- `Put` overwrites an existing key in place and appends a new key at the end.
- `Push` and `array_append` use PHP's next-index rule: one more than the largest integer key, and 0 when there is no non-negative one (PHP 7's rule).
- `array_append` drops the keys of its second argument and appends the values under fresh integer keys.
- `array_join_str` on a missing key stores the appended string on its own.
- `camel_lower` lower-cases the first character and keeps the rest as it is; the tests fix only the one-character case `"A"`, so `"FileCache"` becomes `"fileCache"` and `"a_b"` stays `"a_b"`. The round-trip lemmas between `camel_lower` and `pascal` rest on this choice.
- `pascal` upper-cases the first character and keeps the rest as it is, underscores included; the tests fix only `"abc"`, so `"a_b"` becomes `"A_b"` and not `"AB"`. `using` applies `pascal` only after `camel_upper` has removed the segment's underscores. The round-trip lemmas between `camel_lower` and `pascal` rest on this choice too.
- `changeProps` writes each changed field over the current one as `array_replace` does: integer keys keep their values and positions and are not renumbered as `array_merge` would. The tests use string keys only.
- `camel_upper` drops every underscore and upper-cases the character that follows a run of one or more underscores, so `"a__b"` becomes `"aB"`. It keeps a first character that is not an underscore; a leading underscore is dropped and the next character upper-cased, so `"_a"` becomes `"A"`.
- `new Model($props)` starts the current properties as a copy of `$props`. `tests/skihat/models/ModelTest.php:21-24` is named `testCurrentProps`, but it asserts `originalProps()`. The copy is evidenced only by `testChangeProps` (lines 25-29), where `name` is still current after changing `id`.
- The model's field access (`$model->id`) reads the current properties.
- `module($default)` reads the query parameter `module`. It falls back to `$default` when that parameter is absent.
- `using` takes the segment after the last `.`, converts it with `camel_upper` and then `pascal`.

## Model

| member | source | states |
|---|---|---|
| Models.New | tests/skihat/models/ModelTest.php:6-19 | a fresh model's original and current properties are exactly the construction map, with no errors, and it satisfies the invariant that every original field is current |
| Models.ChangeProps | tests/skihat/models/ModelTest.php:25-29 | fields of the change take the new value, all other fields keep their current value, the key set is the union, and the original properties and errors are untouched |
| Models.ChangePropsOfNew | tests/skihat/models/ModelTest.php:25-29 | on a fresh model the current properties after a change are the construction map with the change written over it, and the original properties are the construction map |
| Models.RunKeepsOriginal | tests/skihat/models/ModelTest.php:25-28 | no sequence of changeProps/addError/clearErrors alters the original properties or breaks the invariant |
| Models.OriginalPropAfterRun | tests/skihat/models/ModelTest.php:13-15 | after any sequence of operations, originalProp of a field is its construction-time value |
| Models.GetAfterRun | tests/skihat/models/ModelTest.php:9-12 | a field given at construction is never missing from the current properties, whatever operations follow |
| Models.AddError | tests/skihat/models/ModelTest.php:31-43 | error(f) after addError(f, e) is exactly e, other fields' errors and all properties are unchanged |
| Models.AddErrorTwice | tests/skihat/models/ModelTest.php:31-43 | a second addError on the same field supersedes the first entirely |
| Models.ClearErrors | tests/skihat/models/ModelTest.php:44-51 | after clearErrors no field has an error and allErrors is empty, while the properties are unchanged |
| Models.ErrorsIndependentOfProps | tests/skihat/models/ModelTest.php:31-51 | changing properties commutes with recording and with clearing errors |
| Models.ClearErrorsIdempotent | tests/skihat/models/ModelTest.php:44-51 | clearing errors twice is the same as clearing once |
| Models.AdminReadExamples | tests/skihat/models/ModelTest.php:6-19 | the test model reads id 1, original name "test" and the original map {id: 1, name: "test"} |
| Models.ChangePropsExample | tests/skihat/models/ModelTest.php:25-30 | after changeProps({id: 2}) the original map is {id: 1, name: "test"} and the current map is {id: 2, name: "test"} |
| Models.ErrorExamples | tests/skihat/models/ModelTest.php:31-52 | the recorded error record is returned for "test", and no error is left after clearErrors |
| Core.CamelUpper | tests/skihat/kernels/CoreTest.php:3-5 | the result holds no underscore, is no longer than the input, equals the input when it has no underscore, and keeps a leading non-underscore character |
| Core.CamelUpperAppend | tests/skihat/kernels/CoreTest.php:3-5 | camel_upper distributes over concatenation when the cut does not follow an underscore |
| Core.CamelUpperNextWord | tests/skihat/kernels/CoreTest.php:3-5 | an underscore followed by a word turns into the word with its first letter upper-cased |
| Core.SnakeCaseUndoesCamelUpper | tests/skihat/kernels/CoreTest.php:3-5 | for every snake_case identifier, the reference snake_case conversion recovers it from camel_upper's result |
| Core.CamelUpperUndoesSnakeCase | tests/skihat/kernels/CoreTest.php:3-5 | for every identifier without underscores, camel_upper recovers it from its snake_case form |
| Core.PascalUndoesCamelLower | tests/skihat/kernels/CoreTest.php:6-11 | pascal undoes camel_lower exactly when the first character is not a lower-case letter |
| Core.CamelLowerUndoesPascal | tests/skihat/kernels/CoreTest.php:6-11 | camel_lower undoes pascal exactly when the first character is not an upper-case letter |
| Core.CaseConversionExamples | tests/skihat/kernels/CoreTest.php:3-11 | camel_upper("a_a") is "aA", camel_lower("A") is "a", and pascal("abc") is "Abc" |
| Core.ArrayKeyValue | tests/skihat/kernels/CoreTest.php:12-20 | the result is present exactly when the key is, and is v exactly when (key, v) is an entry, for string and integer keys alike |
| Core.ArrayKeyValueExamples | tests/skihat/kernels/CoreTest.php:12-20 | the three lookups of the tests give 123, "abc" and "abcd" |
| Core.ArrayKeyFilter | tests/skihat/kernels/CoreTest.php:21-24 | same length, the same key at every position, and the callback's image of the value at every position |
| Core.ArrayKeyFilterLookup | tests/skihat/kernels/CoreTest.php:21-24 | a lookup after filtering is the callback applied to the lookup before, and a missing key stays missing |
| Core.ArrayKeyFilterExample | tests/skihat/kernels/CoreTest.php:21-24 | filtering {a: "abc"} with the "cb" prefixing callback gives {a: "cbabc"} |
| Core.ArrayAppend | tests/skihat/kernels/CoreTest.php:25-29 | pushing the second array's values one by one gives the first array unchanged, followed by those values in order under consecutive integer keys from the next free index |
| Core.ArrayAppendKeepsFirst | tests/skihat/kernels/CoreTest.php:25-29 | every key of the first array still finds its old value after array_append |
| Core.ArrayAppendFindsSecond | tests/skihat/kernels/CoreTest.php:25-29 | the j-th value of the second array is found under the j-th fresh integer key |
| Core.ArrayAppendExample | tests/skihat/kernels/CoreTest.php:25-29 | appending ["2"] to {a: "1"} gives {a: "1", 0: "2"} |
| Core.ArrayJoinStr | tests/skihat/kernels/CoreTest.php:30-34 | the key's string gets s appended, a missing key gets s, all other keys are unchanged, and an existing key keeps the array's length |
| Core.ArrayJoinStrExample | tests/skihat/kernels/CoreTest.php:30-34 | joining "2" onto {a: "1"} at a makes a hold "12" |
| Arrays.Lookup | tests/skihat/kernels/CoreTest.php:30-34 | `$a[$k]` finds a value exactly when `k` is one of the array's keys |
| Arrays.Put | tests/skihat/kernels/CoreTest.php:30-34 | after `$a[$k] = $v`, `k` finds `v`, every other key finds what it found before, and the key set gains `k` |
| Arrays.NextIndex | tests/skihat/kernels/CoreTest.php:25-29 | the next index is 0 or one more than an integer key the array holds |
| Arrays.Merge | tests/skihat/models/ModelTest.php:25-29 | the merged key set is the union, and each key takes the override's value when present and the base value otherwise |
| Arrays.Push | tests/skihat/kernels/CoreTest.php:25-29 | the value is appended under the next free integer key, which then moves up by one |
| Arrays.NextIndexAbove | tests/skihat/kernels/CoreTest.php:25-29 | every integer key lies below the next index, so the index pushed to is always free |
| Arrays.LookupEntry | tests/skihat/kernels/CoreTest.php:12-20 | in an array with unique keys, a lookup finds v exactly when (key, v) is an entry |
| Skihat.Write | tests/skihat/kernels/SkihatTest.php:3-6 | read right after write gives the written value, and every other slot reads as before |
| Skihat.WriteOverwrites | tests/skihat/kernels/SkihatTest.php:3-6 | a second write to a slot makes the first invisible: the registry is as if only the second happened |
| Skihat.WritesCommute | tests/skihat/kernels/SkihatTest.php:3-6 | writes to different slots can be done in either order without any read telling the difference |
| Skihat.WriteReadExample | tests/skihat/kernels/SkihatTest.php:3-6 | reading "test" after writing "test1" there gives "test1" |
| Skihat.LastSegment | tests/skihat/kernels/SkihatTest.php:19 | the result is a dot-free suffix of the path that is either the whole path or preceded by a dot |
| Skihat.LastSegmentOfJoin | tests/skihat/kernels/SkihatTest.php:19 | whatever prefix comes before the last dot, the last segment is what follows it |
| Skihat.Using | tests/skihat/kernels/SkihatTest.php:19 | the class name contains neither '.' nor '_' |
| Skihat.UsingLastSegmentOnly | tests/skihat/kernels/SkihatTest.php:19 | the class name of a dotted path is that of its last segment alone |
| Skihat.UsingOfWords | tests/skihat/kernels/SkihatTest.php:19 | for a last segment made of plain words joined by underscores, the class name is the words, each capitalised, run together |
| Skihat.UsingRoundTrip | tests/skihat/kernels/SkihatTest.php:19 | for a snake_case last segment starting with a letter, lower-casing the class name's first letter and converting back to snake_case gives the segment |
| Skihat.UsingExample | tests/skihat/kernels/SkihatTest.php:17-21 | "kernels.caches.engines.file_cache_engine" names "FileCacheEngine" |
| Requests.Initialize | tests/skihat/applications/ApplicationRequestTest.php:5-9 | after initialize, query and form look up the given query and form maps, and queryAll is the query map as given |
| Requests.QueryIgnoresForm | tests/skihat/applications/ApplicationRequestTest.php:10-14 | query and queryAll answer the same whatever form parameters were given, so no form entry is mixed in |
| Requests.QueryAllHolds | tests/skihat/applications/ApplicationRequestTest.php:10-14 | query(k) is v exactly when (k, v) is an entry of queryAll |
| Requests.Module | tests/skihat/applications/ApplicationRequestTest.php:19-22 | with no module parameter the default is returned, and otherwise the module parameter's value is |
| Requests.ModuleIsDefault | tests/skihat/applications/ApplicationRequestTest.php:19-22 | module(d) is d exactly when the request names no module or names d itself |
| Requests.ModuleNamed | tests/skihat/applications/ApplicationRequestTest.php:19-22 | when the request names a module, the default plays no part |
| Requests.QueryFormExamples | tests/skihat/applications/ApplicationRequestTest.php:10-18 | the test request's query "testGet" is "g1", its queryAll is the query map, and its form "testPost" is "p3" |
| Requests.ModuleExample | tests/skihat/applications/ApplicationRequestTest.php:19-22 | the test request, which names no module, resolves module("testModule") to "testModule" |
| Models.Get | tests/skihat/models/ModelTest.php:9-12 | field access finds a value exactly when the field is a current property, and the value found is that property's entry |
| Models.OriginalProp | tests/skihat/models/ModelTest.php:13-16 | originalProp finds a value exactly when the field was given at construction, and the value is that field's original entry |
| Models.OriginalProps | tests/skihat/models/ModelTest.php:17-20 | the original map holds exactly the fields originalProp answers for, each with the value originalProp gives |
| Models.CurrentProps | tests/skihat/models/ModelTest.php:25-29 | the current map holds exactly the fields field access answers for, each with the value field access gives |
| Models.Error | tests/skihat/models/ModelTest.php:40-43 | error finds a record exactly when one is recorded for the field, and it is that field's entry in the error map |
| Models.AllErrors | tests/skihat/models/ModelTest.php:49-51 | the error map holds exactly the fields error answers for, each with the record error gives |
| Core.CamelLower | tests/skihat/kernels/CoreTest.php:6-8 | the length is kept, the first character is lower-cased and every later character is unchanged |
| Core.Pascal | tests/skihat/kernels/CoreTest.php:9-11 | the length is kept, the first character is upper-cased and every later character, an underscore included, is unchanged under the listed policy, which gives CoreTest.php:10's "Abc" |
| Skihat.Read | tests/skihat/kernels/SkihatTest.php:3-6 | read finds a value exactly when the slot was written, and the value is that slot's entry |
| Requests.Query | tests/skihat/applications/ApplicationRequestTest.php:10-12 | query finds a value exactly when the key is a query parameter, and it is that parameter's entry |
| Requests.QueryAll | tests/skihat/applications/ApplicationRequestTest.php:10-14 | queryAll holds exactly the keys query answers for, each with the value query gives |
| Requests.Form | tests/skihat/applications/ApplicationRequestTest.php:15-18 | form finds a value exactly when the key is a form parameter, and it is that parameter's entry |

## Left out

- `Skihat::debug` (a per-channel log buffer) and `locate` (building a location from a dotted path) are not modelled. Their tests assert nothing.
- `Skihat::import` and `ioc` are not modelled. They load code files and instantiate classes at run time, which is I/O and reflection.
- `using` with a `path#ClassName` suffix is not modelled. Its only appearance is in a commented-out line.
- The Cache and Logger facades and their file engines are not modelled. Their behaviour is file-system I/O, and their engines are chosen through the container.
- The security filter is not modelled. Its test asserts nothing, and it is configured through the container.
- `enable_cached` is not modelled. It reads environment configuration.
- The test-suite wiring file is not modelled.
- Integer keys and values are unbounded. PHP's 64-bit range is not modelled, and neither is the failure of `$a[] = $v` once `PHP_INT_MAX` is a key: `Arrays.NextIndex` and `Arrays.Push` go on to `PHP_INT_MAX + 1`, and so does `array_append`.
- Arrays.Push: when `PHP_INT_MAX` is already a key, PHP 7 fails with "Cannot add element to the array as the next element is already occupied" and adds nothing. The model appends under `PHP_INT_MAX + 1` instead, and `Core.ArrayAppend` inherits this.
- PHP's coercion of numeric-string keys to integer keys is not modelled. `IntKey` and `StrKey` are kept apart.
- PHP's loose comparison of arrays is not modelled. The examples state exact entry order, which is stronger than the order-insensitive equality PHPUnit's `assertEquals` uses.
- Unicode case mapping is not modelled. Only the 26 ASCII letters change case.
- Core.ArrayJoinStr: the source appends to the array it is given, by reference. The model returns the updated array instead, and the test's read of `$first['a']` is a lookup in that returned array. The model also takes an array whose values are all strings, so an array that holds a non-string value, under `k` or elsewhere, is not modelled. PHP's conversion of such a value to a string by `.` is left out with it.
- Models.ClearErrors: returns the updated model value rather than the same object. The chaining the source allows is modelled as passing the returned value to the next call, and object identity is not stated.
- Requests.Module: whether an empty `module` parameter falls back to the default is not fixed by the tests. The model returns the parameter as given.
- The registry is a value passed around, not process-wide global state. A read of a slot nobody wrote gives `None`, not an error.
