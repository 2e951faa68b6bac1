# py_template core in Dafny

This project models three parts of the py_template project scaffold:

- **The file-backed TTL cache.** `CacheManager` in `utils/cache_utils.py`.
- **The list-of-record utilities.** These live in `utils/data_utils.py`.
- **The filename helpers.** These live in `utils/file_utils.py`.

## The cache

The cache directory is the state of the `CacheUtils.CacheManager` class: a map `files` from file name to what `json.load` makes of that file. A file is one of three things:

- a `Record` written by `set_cache`;
- a `NoData` object, which has a `"timestamp"` but no `"data"`;
- `Corrupt`, meaning anything whose loading or timestamp lookup raises.

The directory may also hold foreign files under any name.

The methods change the directory in place. Each method's `ensures` ties the new directory to a pure function in module `CacheDir`:

- `Written` for `set_cache`;
- `ReadValue` and `ReadEffect` for `get_cache`;
- `Cleared` for `clear_cache`;
- `Swept` for `cleanup_expired`.

The properties are proved as lemmas about those functions. They cover:

- the round trip through `set_cache` and `get_cache`;
- the strict expiry boundary;
- what a failed write destroys;
- the partition of a scan into valid and expired files;
- what `cleanup_expired` keeps;
- idempotence of the sweep.

Scenario methods check what one caller can rely on across several calls, such as set then get, or a stats scan and then a cleanup at the same time.

How the environment is represented:

- **Key digest.** The MD5 hex digest of a key is a function fixed at construction. It is deterministic, and the model does not assume it is injective.
- **Clock.** The clock is an integer `now` argument of each operation.
- **Failed serialisation.** Whether `json.dump` can serialise a payload is a boolean argument of `SetCache`.

Three behaviours of the code are worth knowing:

- **Corrupt files on read.** `get_cache` does not delete a corrupt file: its exception handler (`utils/cache_utils.py:68-70`) only returns None, so `GetCache` leaves corrupt files in place. Of the reading operations, only `cleanup_expired` removes them; `delete_cache` and `clear_cache` delete them and `set_cache` overwrites them like any other file.
- **Failed writes.** `set_cache` opens the file with mode `'w'` before `json.dump` runs (`utils/cache_utils.py:43-44`), so an unserialisable payload truncates the old record. `Written` therefore leaves a `Corrupt` file.
- **Default TTL.** `CACHE_EXPIRE_TIME` is imported from `config.py`, but that file does not define it. The default TTL is therefore a positive constructor argument. Python's `expire_time or default` falls back to the default both for a missing TTL and for 0 (`EffectiveExpireTime`).

## The data utilities

Records are `map<string, Value>`, where `Value` is `Null | Int | Str`. Values have a total order: Null < Int < Str, integers numerically, and strings lexicographically.

Five utilities build their result in a loop, and each is a method:

- `clean_data` is proved equal to the recursive specification `Cleaned`;
- `filter_data` is proved equal to the recursive specification `Filtered`;
- `count_by_field` is proved equal to `Counts`, built on the recursive `Tally`;
- `merge_data` is proved to apply `MergeItem` (a single-record function) with the lookup dict `Index` to each record of data1;
- `validate_data` has no specification function: its `ensures` states the whole quantified condition.

For `clean_data` and `filter_data` the result is pinned down from both sides: it is a subsequence of the input (cleaned), every record in it qualifies, and it has one record per qualifying input record.

`get_unique_values` is a method too. Its result is proved duplicate-free and equal, as a set, to `UniqueValues`.

`sort_data` and `split_data` are expressions in the source, so they are functions here:

- `sort_data` is a stable insertion sort, proved to return a permutation ordered by the field.
- `split_data` takes its ratio as a fraction `ratioNum / ratioDen`. It models `int()` as truncation toward zero and models Python's slice-bound clamping.

## The filename helpers

`clean_filename` is built from three functions, and the lemmas below are proved over them:

- `ReplaceIllegal` maps each of `<>:"/\|?*` to `_`.
- `CollapseSpaces` turns every run of `\s` characters into one `' '`.
- `Strip` removes whitespace at both ends.

The proved properties:

- the result is `' '.join(s.split())` of the substituted name, where `Words` is an independent definition of `str.split()` (the maximal runs of non-whitespace) and `JoinWords` joins them with one `' '`;

- the result has no illegal character;
- it has no whitespace at either end;
- all its whitespace is single `' '` characters;
- its non-whitespace characters are those of the substituted input, in order;
- dots are never removed;
- the function is idempotent.

`get_file_extension` follows the `pathlib` rule for `suffix`:

- Trailing separators are dropped.
- The final component is taken.
- The last dot starts the suffix unless it is the first or last character of that component.

The result is lower-cased. The extension is proved independent of the case of the path. `is_supported_format` holds exactly when the extension is in the list, so a listed format that is not empty or a lower-case dot-led suffix (`"txt"`, `".TXT"`) never matches.

## Model

| member | source | states |
|---|---|---|
| CacheUtils.EffectiveExpireTime | utils/cache_utils.py:20 | the TTL is never 0: an explicit non-zero TTL is kept, and a missing TTL or 0 falls back to the default |
| CacheUtils.CacheManager.constructor | utils/cache_utils.py:17-21 | the manager starts on the given directory with the TTL given by `expire_time or default` |
| CacheUtils.CacheManager.CacheKey | utils/cache_utils.py:23-26 | the key's MD5 digest is 32 lower-case hex digits, whatever the key holds |
| CacheUtils.CacheManager.CachePath | utils/cache_utils.py:28-31 | the storage name is the key's digest plus ".json", a name the `*.json` scans see, with no separator in it |
| CacheUtils.CacheManager.SetCache | utils/cache_utils.py:33-49 | returns true exactly when the payload serialises; the key's file becomes the new record, or a corrupt file on failure, and no other file changes |
| CacheUtils.CacheManager.GetCache | utils/cache_utils.py:51-70 | returns the payload only for an unexpired record; deletes the key's file exactly when its timestamp is expired; missing and corrupt files change nothing |
| CacheUtils.CacheManager.DeleteCache | utils/cache_utils.py:72-81 | always returns true and removes exactly the key's file |
| CacheUtils.CacheManager.ClearCache | utils/cache_utils.py:83-91 | returns true and removes exactly the `*.json` files |
| CacheUtils.CacheManager.GetCacheInfo | utils/cache_utils.py:93-120 | read-only; counts all `*.json` files, the valid ones and the expired-or-unreadable ones, and total = valid + expired |
| CacheUtils.CacheManager.CleanupExpired | utils/cache_utils.py:122-139 | removes exactly the expired and unreadable `*.json` files and returns how many it removed |
| CacheUtils.SetThenGet | utils/cache_utils.py:33-67 | a successful set followed by a get at most the TTL later returns the payload and keeps the record |
| CacheUtils.SetThenGetExpired | utils/cache_utils.py:62-65 | a get more than the TTL after the set misses and leaves the key's file absent |
| CacheUtils.DeleteTwice | utils/cache_utils.py:72-78 | two deletes both return true and the key's file is absent afterwards |
| CacheUtils.CleanupMatchesInfo | utils/cache_utils.py:93-139 | cleanup removes as many files as a stats scan at the same time counts as expired; a later scan finds no expired file and only the valid ones |
| CacheUtils.ClearThenGet | utils/cache_utils.py:83-91 | after clear_cache a scan finds no file and every get misses |
| CacheDir.WrittenTouchesOneFile | utils/cache_utils.py:33-44 | set_cache adds or replaces exactly one file, leaves all others equal, and stores the record exactly when serialisation succeeds |
| CacheDir.RoundTrip | utils/cache_utils.py:59-67 | a written record is read back exactly when `now - written <= ttl`, in which case the read changes nothing; otherwise the read evicts it |
| CacheDir.FailedWriteLosesRecord | utils/cache_utils.py:43-49 | after a failed write the key reads as a miss, the read deletes nothing, and cleanup would remove the file |
| CacheDir.ReadCases | utils/cache_utils.py:51-70 | a hit exactly for an unexpired record; an eviction exactly for a readable file with an expired timestamp; no change for a missing or corrupt file |
| CacheDir.ScanPartition | utils/cache_utils.py:102-112 | valid and expired files are disjoint, together make up all `*.json` files, and their counts add up |
| CacheDir.SweptKeepsValid | utils/cache_utils.py:126-137 | cleanup keeps every valid file and every foreign file unchanged, and leaves no stale `*.json` file |
| CacheDir.SweptCount | utils/cache_utils.py:122-139 | files after cleanup plus the number removed equals the files before |
| CacheDir.SweptIdempotent | utils/cache_utils.py:122-139 | a second cleanup at the same time removes nothing |
| CacheDir.ClearedKeepsForeign | utils/cache_utils.py:86-87 | clear leaves no `*.json` file and keeps every other file unchanged |
| Values.LessStrictTotalOrder | utils/data_utils.py:69-72 | the `<` used by filter_data and sort_data is irreflexive, transitive and total |
| Values.LessEqTotalOrder | utils/data_utils.py:73-76 | the `<=` is reflexive, transitive, total and antisymmetric |
| DataUtils.CleanItem | utils/data_utils.py:17-18 | the cleaned record keeps exactly the fields whose value is neither None nor "", with their values |
| DataUtils.CleanData | utils/data_utils.py:11-23 | the result equals the specification, is no longer than the input, and holds only non-empty records without None or "" |
| DataUtils.CleanedIsClean | utils/data_utils.py:11-23 | every cleaned record is non-empty and has no None or "" value; the result is no longer than the input |
| DataUtils.CleanedIsSubsequence | utils/data_utils.py:15-21 | the result is the cleaned records in input order with the empty ones dropped |
| DataUtils.CleanedComplete | utils/data_utils.py:15-21 | every record that cleans to a non-empty dict is in the result, and the result has exactly one record per such input record |
| DataUtils.CleanedIdempotent | utils/data_utils.py:11-23 | cleaning twice equals cleaning once |
| DataUtils.ValidateData | utils/data_utils.py:25-35 | true exactly when the list is non-empty and every record has every required field with a non-None value |
| DataUtils.ParseOperator | utils/data_utils.py:65-80 | an operator string selects no branch of the `elif` chain exactly when it is none of the eight known operators |
| DataUtils.FilteredKeeps | utils/data_utils.py:56-82 | no longer than the input; every kept record has the field and satisfies the operator |
| DataUtils.FilterData | utils/data_utils.py:51-82 | the loop computes the specification |
| DataUtils.FilteredIsSubsequence | utils/data_utils.py:58-80 | the result is a subsequence of the input, in input order |
| DataUtils.FilteredComplete | utils/data_utils.py:58-80 | every record that has the field and passes the test is in the result, and the result has exactly one record per such input record |
| DataUtils.UnknownOperatorSelectsNothing | utils/data_utils.py:64-80 | an operator outside the eight known ones selects nothing |
| DataUtils.EqualNotEqualPartition | utils/data_utils.py:65-68 | the "==" and "!=" results together are exactly the records that have the field |
| DataUtils.PrecedesTotalPreorder | utils/data_utils.py:91 | ordering records by `x.get(field, "")`, ascending or descending, is transitive and total |
| DataUtils.InsertionSortCorrect | utils/data_utils.py:91 | the sort returns a permutation of its input, ordered by the field |
| DataUtils.SortData | utils/data_utils.py:84-91 | the input itself when it is empty or its first record lacks the field; otherwise a permutation ordered by the field, reversed when asked |
| DataUtils.GetUniqueValues | utils/data_utils.py:93-103 | no duplicates; a value is listed exactly when some record has it as a non-None field value and the guard on the first record passes |
| DataUtils.CountByField | utils/data_utils.py:105-116 | the loop computes the specification |
| DataUtils.TallyCountsOccurrences | utils/data_utils.py:110-114 | the counted keys are the present values, and each count is the number of records with that value, at least 1 |
| DataUtils.TallySum | utils/data_utils.py:110-114 | the counts sum to the number of records whose field is present and not None |
| DataUtils.CountsMatchUniqueValues | utils/data_utils.py:93-116 | count_by_field's keys are get_unique_values' values; each count is the number of occurrences, at least 1; when the guard passes they sum to the number of records with the field |
| DataUtils.Index | utils/data_utils.py:126-127 | every key value of data2 is in the lookup dict, and each entry maps a value to a record of data2 carrying that value |
| DataUtils.IndexLastWins | utils/data_utils.py:126-127 | of several records of data2 sharing a key value the last one is in the lookup dict |
| DataUtils.MergeItem | utils/data_utils.py:131-136 | an unmatched record passes through; a matched one has the union of both field sets, with data2's value on every field of the match |
| DataUtils.MergeData | utils/data_utils.py:118-138 | `data1 or data2` when either is empty; otherwise one merged record per record of data1, in order, each keeping its key value |
| DataUtils.SliceBound | utils/data_utils.py:163-164 | a slice bound is clamped into the list and an in-range bound is kept |
| DataUtils.SplitData | utils/data_utils.py:156-166 | train + test is the input; for a ratio in [0, 1] train holds floor(len * ratio) records; for a ratio of 1 or more train is everything |
| FileExtensions.FinalComponent | utils/file_utils.py:77 | the final component of the path holds no separator |
| FileExtensions.Suffix | utils/file_utils.py:77 | the suffix is empty, or a dot followed by at least one character, with no further dot and no separator |
| FileExtensions.GetFileExtension | utils/file_utils.py:75-77 | the extension has the suffix's shape and length and no upper-case ASCII letter |
| FileExtensions.IsSupportedFormat | utils/file_utils.py:79-82 | true exactly when some listed format equals the extension; only a format that is empty or a lower-case dot-led suffix can match |
| FileExtensions.ExtensionIgnoresCase | utils/file_utils.py:75-77 | the extension of a lower-cased path is the extension of the path |
| FileExtensions.SupportedIgnoresCase | utils/file_utils.py:79-82 | is_supported_format holds exactly when the extension is in the list, and does not depend on the case of the path |
| FileNames.ReplaceIllegal | utils/file_utils.py:88 | length kept; each illegal character becomes one '_' and every other character stays |
| FileNames.CollapseSpaces | utils/file_utils.py:90 | the collapsed string is no longer than the input and starts with whitespace exactly when the input does |
| FileNames.CollapseVisible | utils/file_utils.py:90 | collapsing whitespace keeps every other character, in order |
| FileNames.CollapseOnlyPlainSpaces | utils/file_utils.py:90 | after collapsing, every whitespace character is a plain ' ' |
| FileNames.CollapseNoAdjacentSpaces | utils/file_utils.py:90 | after collapsing, no two whitespace characters are adjacent |
| FileNames.CollapseFixpoint | utils/file_utils.py:90 | a string already collapsed is left alone |
| FileNames.Strip | utils/file_utils.py:90 | strip leaves no whitespace at either end and returns a string that has none there unchanged |
| FileNames.StripProperties | utils/file_utils.py:90 | strip removes only whitespace and keeps the collapsed and legal shape |
| FileNames.StripCollapseWords | utils/file_utils.py:90 | collapsing whitespace runs and stripping gives the words of `str.split()` joined by single ' ' |
| FileNames.CleanFilename | utils/file_utils.py:84-91 | no illegal character, no whitespace at either end, only single ' ' between other characters, and the non-whitespace characters of the substituted name in order |
| FileNames.CleanFilenameWords | utils/file_utils.py:84-91 | the result is `' '.join(s.split())` of the name with illegal characters replaced |
| FileNames.CleanFilenameIdempotent | utils/file_utils.py:84-91 | cleaning twice equals cleaning once |
| FileNames.CleanFilenameKeeps | utils/file_utils.py:88-90 | every character that is neither illegal, whitespace nor '_' occurs as often in the result as in the input |
| FileNames.DotsKept | utils/file_utils.py:89-90 | the result has as many dots as the input |

## Left out

- File-system I/O, `json` encoding and MD5 are not modelled. The directory is a map, a file's content is what loading it yields, and the digest is an abstract function.
- Timestamps are integers. `time.time()`'s float seconds are not modelled.
- Every `print` in the exception handlers is left out.
- The `"总大小"` (total size) and `"缓存目录"` (cache directory) entries of get_cache_info's result are left out: they need file sizes and paths.
- `mkdir` in the constructor and the `cache_dir or CACHE_DIR` default are left out. The directory is a constructor argument.
- Races are not modelled: concurrent writers, and files that appear or vanish between `exists()`, `open` and `unlink`, or during a scan. Each scan runs over a snapshot of the `*.json` names, in any order.
- An `unlink` that raises is not modelled. In delete_cache it would return False. In cleanup_expired's exception handler it would propagate. In clear_cache (`utils/cache_utils.py:86-91`) it would stop the loop after a partial removal and return False, for example on a directory named `x.json`.
- CacheUtils.CacheManager.SetCache: the payload is modelled as its JSON form, the value `json.load` gives back. Python payloads that do not come back equal are not modelled: a tuple comes back as a list, a dict with non-string keys comes back with string keys, and floats are not expressible (numbers are integers). A stored JSON null is `Some(JNull)` in the model, but get_cache returns it as Python's `None`, which a caller cannot tell apart from a miss.
- CacheUtils.CacheManager.GetCacheInfo and CacheUtils.CacheManager.CleanupExpired: both scans call `time.time()` again for every file (`utils/cache_utils.py:107`, `:131`). The model uses one `now` for a whole scan, and CacheUtils.CleanupMatchesInfo's "at the same time" relies on that.
- The global `cache_manager` instance and its one-line delegating functions (`utils/cache_utils.py:142-166`) are left out.
- interactive_utils.py, config.py, main.py, start.py and script/setup.py are not part of this model: they are terminal UI and scaffolding.
- read_json, write_json, read_csv, write_csv, read_text, write_text, get_file_size and format_file_size in utils/file_utils.py are not part of this model: they are I/O wrappers and float formatting.
- convert_to_dataframe, dataframe_to_dict_list (pandas) and sample_data (`random`) in utils/data_utils.py are not part of this model.
- filter_data, sort_data and merge_data return the input's own dict objects, and sort_data can return the input list itself (`utils/data_utils.py:66`, `:89`, `:123`, `:136`). Records are values here, so that aliasing is not modelled.
- The default arguments `operator="=="`, `reverse=False` and `split_ratio=0.8` are not modelled. Every argument is explicit.
- Values are only None, integers and strings. Floats, booleans, lists and dicts as field values are not modelled.
- Python raises TypeError for an order comparison (`<`, `<=`, `>`, `>=`, and the comparisons inside `sorted`) between values of different types, e.g. an int against a str, and also between two Nones. The model instead orders all values totally: Null < Int < Str, with `Null <= Null`. So sort_data over records whose field is None, and filter_data with an ordering operator against None, return a result where Python raises.
- DataUtils.Matches: every test that Python would reject with a TypeError is taken as no match instead of an exception escaping filter_data. This covers an "in" or "not in" test such as a non-string value `in` a string, and ">", "<", ">=" or "<=" against a list operand.
- DataUtils.SortData: stability of `sorted` is not stated. The insertion sort is stable, but only the permutation and the order are proved.
- DataUtils.GetUniqueValues: the order of the returned list comes from iterating a Python set. The contract states the elements and that there are no duplicates, not their order.
- DataUtils.SplitData: the ratio is an exact fraction rather than a float, so float rounding in `len(data) * split_ratio` is not captured.
- FileExtensions.GetFileExtension: only ASCII letters are lower-cased. Unicode case mapping is not modelled.
- FileExtensions.FinalComponent: `Path` normalisation of `.` components and of repeated separators is not modelled. Windows drive letters and backslash separators are not modelled either.
- FileExtensions.Suffix: follows the `suffix` rule where a name ending in a dot has no suffix.
