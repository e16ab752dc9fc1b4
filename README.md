# KrakenD configuration generator: endpoint normalisation and merge

This project models the core of a generator for KrakenD API-gateway configuration. The generator reads
raw endpoint records (service, method, path, query-string field, header field, encoding). It skips
incomplete records and normalises the rest into gateway endpoints with one backend each. Records that
share an `(endpoint path, method)` key are merged into one endpoint. Finally it derives the CORS
`allow_methods` and `allow_headers` lists from every method and header key it has seen.

The model follows `scripts/krakend_json_generator.py`. Dafny proves these properties of it:

- the keys of the returned endpoints are distinct and appear in the order they first occur;
- the first record with a key fixes everything except the two lists;
- each stored list holds exactly the keys of every record with that key;
- skipped records change nothing;
- path-variable conversion is idempotent and leaves no `:name` behind;
- the CORS lists are the sorted sets of everything that was collected.

Layout, one module per file:

- `wrappers.dfy`: `Option`. A null or NaN field is `None`.
- `strings.dfy`: `strip()`, `lstrip(c)`, `split(c)` and `split(c)[0]` on code-point strings.
- `ordering.dfy`: Python's string order, plus `sorted(...)` and `sorted(list(set(...)))` on lists and on sets.
- `query_params.dfy`: `process_query_params`. It is a method with a loop, proved against the function `QueryKeys`.
- `path_variables.dfy`: `convert_path_variables`. The regular-expression substitution is written as the scan the regex engine performs.
- `endpoints.dfy`: the records and endpoints as datatypes, plus the reference semantics of the loop:
  - `Normalize` does the per-record work;
  - `Place` is the dict lookup: merge into the stored endpoint or append a new one;
  - `Step` is one iteration and `Run` is the whole loop;
  - `Valid` is the invariant that ties the dict and the list together.
- `endpoint_properties.dfy`: what a whole run guarantees.
- `generator.dfy`: class `Registry`. It holds the state `process_endpoint_data` mutates: the dict, the two
  sets and the endpoint objects they share. Its methods are proved equal to `Step`/`Run`. `Generate` is the
  top-level script: one call from empty state, then the two CORS sorts.

The dict `processed_endpoints` and the returned list share endpoint objects, so a merge made by a later
record shows up in an endpoint returned earlier in the same call. The model captures this sharing with a
store of endpoints and a map from key to position. The returned list is the part of the store created
during the call.

Three behaviours of the code are easy to misread; the model follows the code:

- A new endpoint's header and query-string lists are sorted but not deduplicated (lines 109 and 138). Only a
  merge applies `sorted(list(set(...)))` (lines 123-124). So one record that repeats a key keeps both copies.
  `NewEndpointLists` states this as multiset equality, and `RunSingle` carries it to the end of a run for a key
  that only one record has. `Merge` states strict sortedness.
- `lstrip('?')` removes every leading `?`, not just one (line 67).
- Query keys are trimmed as well as cut at the first `=` (line 70).

## Model

| member | source | states |
|---|---|---|
| `Strings.Trim` | scripts/krakend_json_generator.py:70 | `strip()`, the definition `TrimSpec` is about; never longer than its input |
| `Strings.TrimSpec` | scripts/krakend_json_generator.py:70 | `strip()` keeps the contiguous part of the input that starts where the leading white space ends. Only white space lies before and after it, the result neither starts nor ends with white space, and an already-trimmed string is left alone |
| `Strings.TrimLeftSpec` | scripts/krakend_json_generator.py:70 | the left strip drops a leading run of white space and nothing else |
| `Strings.TrimRightSpec` | scripts/krakend_json_generator.py:70 | the right strip drops a trailing run of white space and nothing else |
| `Strings.TrimAvoids` | scripts/krakend_json_generator.py:70 | `strip()` introduces no character: one the input lacks is missing from the result, so a key cut from a `&`-free segment holds no `&` |
| `Strings.LStrip` | scripts/krakend_json_generator.py:67 | `lstrip(c)`, the definition `LStripSpec` is about; never longer than its input |
| `Strings.LStripSpec` | scripts/krakend_json_generator.py:67 | `lstrip('?')` drops every leading `?` and keeps the rest as a suffix that does not start with `?` |
| `Strings.BeforeFirst` | scripts/krakend_json_generator.py:103 | `split(c)[0]` is the longest prefix free of `c`; if it is shorter than the input, a `c` follows it |
| `Strings.Split` | scripts/krakend_json_generator.py:69 | `split(sep)` for a one-character separator, the definition `JoinSplit` and `SplitJoin` pin down: never an empty list, and no piece holds the separator |
| `Strings.JoinSplit` | scripts/krakend_json_generator.py:69 | joining the pieces of `split(sep)` with `sep` gives back the string |
| `Strings.SplitJoin` | scripts/krakend_json_generator.py:69 | splitting a join of separator-free pieces gives back the pieces |
| `Strings.BeforeFirstAt` | scripts/krakend_json_generator.py:70 | the text before the first separator of `a + sep + b` is `a`, when `a` has no separator |
| `Ordering.LessEq` | scripts/krakend_json_generator.py:109 | Python's `<=` on `str`, code point by code point with a proper prefix first, the order every `sorted` call (lines 109, 123-124, 138, 205-206) uses and `LessEqTotal`, `LessEqTransitive` and `LessEqAntisymmetric` are about |
| `Ordering.LessEqTotal` | scripts/krakend_json_generator.py:109 | Python's string comparison is total: any two strings are ordered one way or the other |
| `Ordering.LessEqTransitive` | scripts/krakend_json_generator.py:109 | Python's string comparison is transitive |
| `Ordering.LessEqAntisymmetric` | scripts/krakend_json_generator.py:109 | two strings ordered both ways are equal |
| `Ordering.Sort` | scripts/krakend_json_generator.py:109 | `sorted(list)` is sorted and a permutation of the list |
| `Ordering.SortMembers` | scripts/krakend_json_generator.py:147 | sorting changes no membership, so `'Authorization' in headers` can be tested before or after the sort |
| `Ordering.SortedDedup` | scripts/krakend_json_generator.py:123-124 | `sorted(list(set(list)))` is strictly sorted and has exactly the list's elements |
| `Ordering.StrictlySortedUnique` | scripts/krakend_json_generator.py:205-206 | two strictly sorted lists with the same elements are equal, so `sorted(list(s))` does not depend on how the set is enumerated |
| `Ordering.SortedList` | scripts/krakend_json_generator.py:205-206 | `sorted(list(s))` of a set is strictly sorted and holds exactly the set's elements |
| `QueryParams.SegmentKey` | scripts/krakend_json_generator.py:70 | `segment.split(sep, 1)[0].strip()`, used with `=` here and with `:` for headers at line 103; never longer than the segment, and a non-empty key is non-empty, free of the separator and trimmed at both ends |
| `QueryParams.SegmentKeys` | scripts/krakend_json_generator.py:69-72 | the loop that keeps each segment's key when it is not empty (the same loop for headers is at lines 102-105); never more keys than segments, each of key shape. `SegmentKeysMember`, `SegmentKeysAppend` and `QueryKeysKeepOrder` are about it |
| `QueryParams.QueryKeys` | scripts/krakend_json_generator.py:63-73 | the keys of a query-string field, the definition `ProcessQueryParams` is proved equal to and the `QueryKeys...` lemmas are about; every key is non-empty, trimmed and free of `=` |
| `QueryParams.ProcessQueryParams` | scripts/krakend_json_generator.py:63-73 | the loop builds the list `QueryKeys` describes: none for a null field, otherwise the non-empty trimmed key of each `&` segment, in order |
| `QueryParams.SegmentKeysMember` | scripts/krakend_json_generator.py:69-72 | a key is kept exactly when it is non-empty and some segment yields it |
| `QueryParams.SegmentKeysSound` | scripts/krakend_json_generator.py:69-72 | every kept key comes from some segment |
| `QueryParams.SegmentKeysComplete` | scripts/krakend_json_generator.py:69-72 | every segment's non-empty key is kept |
| `QueryParams.SegmentKeysAppend` | scripts/krakend_json_generator.py:69-72 | the keys keep segment order: the keys of two runs of segments are the keys of each, concatenated |
| `QueryParams.QueryKeysShape` | scripts/krakend_json_generator.py:63-73 | every query key is non-empty, has no white space at either end, and contains neither `=` nor `&` |
| `QueryParams.QueryKeysMember` | scripts/krakend_json_generator.py:63-73 | the keys of a non-null field are exactly the non-empty keys of its segments after the leading `?`s are stripped |
| `QueryParams.QueryKeysOfJoin` | scripts/krakend_json_generator.py:66-72 | a field of `&`-joined segments yields those segments' keys, with or without a leading `?` |
| `QueryParams.SegmentKeyOf` | scripts/krakend_json_generator.py:70 | `key=value` yields `key` when the key needs no trimming |
| `QueryParams.QueryKeysExample` | scripts/krakend_json_generator.py:63-73 | `?page=1&sort=desc` yields `page`, `sort` |
| `QueryParams.QueryKeysKeepOrder` | scripts/krakend_json_generator.py:69-72 | query keys come back in the order written, even when equal or out of order: no sorting or deduplication happens here |
| `PathVariables.ConvertPathVariables` | scripts/krakend_json_generator.py:75-77 | `re.sub(r':([a-zA-Z0-9_-]+)', r'{\1}', path)` as a left-to-right scan, the definition the `Convert...` lemmas are about |
| `PathVariables.NameRunSpec` | scripts/krakend_json_generator.py:77 | a variable name is the longest run of `[a-zA-Z0-9_-]` characters, as the greedy `+` takes it |
| `PathVariables.ConvertLeavesNoVariable` | scripts/krakend_json_generator.py:77 | after the substitution no `:` is followed by a name character |
| `PathVariables.ConvertFixpoint` | scripts/krakend_json_generator.py:77 | a path without variables is returned unchanged |
| `PathVariables.ConvertIdempotent` | scripts/krakend_json_generator.py:77 | converting twice gives the same result as converting once |
| `PathVariables.ConvertLiteralPrefix` | scripts/krakend_json_generator.py:77 | text without `:` is copied, and the rest of the path is converted independently |
| `PathVariables.ConvertVariablePrefix` | scripts/krakend_json_generator.py:77 | `:name` becomes `{name}` when the rest does not continue the name, and the rest is converted independently |
| `PathVariables.ConvertColonPrefix` | scripts/krakend_json_generator.py:77 | a `:` that no name character follows is copied unchanged and the rest is converted on its own; with `ConvertLiteralPrefix` and `ConvertVariablePrefix` this covers every step of the scan |
| `PathVariables.ConvertLiteral` | scripts/krakend_json_generator.py:77 | a piece without `:` is copied |
| `PathVariables.ConvertExample` | scripts/krakend_json_generator.py:75-77 | `/users/:id/orders/:orderId` becomes `/users/{id}/orders/{orderId}` for all valid names |
| `Endpoints.HeaderKeys` | scripts/krakend_json_generator.py:101-105 | the header keys of a record: each comma-separated entry's non-empty trimmed text before its first `:`, in order. It is the definition `CollectHeaders` is proved equal to, and every key is non-empty, trimmed and free of `:` |
| `Endpoints.EndpointPath` | scripts/krakend_json_generator.py:111-112 | the gateway path, the definition `EndpointPathShape` is about |
| `Endpoints.UrlPattern` | scripts/krakend_json_generator.py:113 | the backend's `url_pattern`, the definition `EndpointPathShape` and `HostShape` are about |
| `Endpoints.HostFor` | scripts/krakend_json_generator.py:134 | `services_host_mapping.get(service, default)`, the definition `HostShape` is about |
| `Endpoints.Accepted` | scripts/krakend_json_generator.py:92 | the skip test: a record is processed only when its service, method and path are all present. `Normalize` returns `None` exactly when it fails |
| `Endpoints.RecordKey` | scripts/krakend_json_generator.py:115 | the dict key `(endpoint_path, method)`, built from `EndpointPath` and the record's method. `NewEndpoint` and `Normalize` carry it |
| `Endpoints.NewEndpoint` | scripts/krakend_json_generator.py:127-148 | a new endpoint carries the record's key, and both of its lists are sorted |
| `Endpoints.NewEndpointLists` | scripts/krakend_json_generator.py:140-148 | a new endpoint's lists are the record's header and query keys as multisets (sorted, not deduplicated); `extra_config` is the auth block exactly when `Authorization` is among the header keys, and `{}` otherwise |
| `Endpoints.Merge` | scripts/krakend_json_generator.py:117-124 | a merge changes neither the key nor anything but the two lists, and leaves both lists strictly sorted |
| `Endpoints.MergeLists` | scripts/krakend_json_generator.py:119-124 | each merged list holds exactly the union of the stored elements and the new record's elements |
| `Endpoints.Normalize` | scripts/krakend_json_generator.py:91-115 | a record is skipped exactly when its service, method or path is missing; otherwise its endpoint carries its key and sorted lists, and its method is recorded |
| `Endpoints.Place` | scripts/krakend_json_generator.py:117-155 | the dict lookup of one record, merge or append, the definition `PlaceRecord` is proved equal to and `StepValid`, `StepKeys`, `StepSettled` and `StepLists` are about |
| `Endpoints.Step` | scripts/krakend_json_generator.py:91-155 | one iteration of the loop, skip included, the definition `ProcessRecord` is proved equal to |
| `Endpoints.Run` | scripts/krakend_json_generator.py:91-166 | the whole loop, the definition `ProcessEndpointData` is proved equal to and `RunValid`, `RunKeys`, `RunFirstWins`, `RunHeaders`, `RunParams`, `RunSets` and `RunSkipsRows` are about |
| `Endpoints.StepValid` | scripts/krakend_json_generator.py:117-155 | one record keeps the dict and the list in step (each key leads to the one endpoint with that key) and keeps every stored list sorted |
| `Endpoints.RunValid` | scripts/krakend_json_generator.py:91-166 | the whole loop keeps that invariant |
| `EndpointProperties.EndpointPathShape` | scripts/krakend_json_generator.py:111-113 | the endpoint path is `/service` followed by the converted path, except for `we` and `ne`, which use the converted path alone; the backend's `url_pattern` is the converted path |
| `EndpointProperties.HostShape` | scripts/krakend_json_generator.py:128-135 | one backend, with the mapped host or the default host, the record's encoding and method, `sd` "static" and host sanitising not disabled |
| `EndpointProperties.ExtendSpec` | scripts/krakend_json_generator.py:117-155 | appending first occurrences adds no duplicate, keeps what was there in front, and the result holds exactly the old keys and the new ones |
| `EndpointProperties.KeysDistinct` | scripts/krakend_json_generator.py:154-155 | in a valid state no two endpoints share a key, and the dict's keys are exactly the endpoints' keys |
| `EndpointProperties.StepKeys` | scripts/krakend_json_generator.py:117-155 | one record appends its key if the key is new, and otherwise leaves the list of keys unchanged |
| `EndpointProperties.RunKeys` | scripts/krakend_json_generator.py:91-166 | after the loop, the list of endpoints holds the keys it had before, then each new key of an accepted record, in first-occurrence order |
| `EndpointProperties.RunKeysFromEmpty` | scripts/krakend_json_generator.py:196-199 | from empty state, the returned endpoints have distinct keys, exactly those of the accepted records, in first-occurrence order |
| `EndpointProperties.FirstRecordSpec` | scripts/krakend_json_generator.py:117 | `FirstRecord` finds the first accepted record with a key, and finds none only when no accepted record has that key |
| `EndpointProperties.StepSettled` | scripts/krakend_json_generator.py:117-155 | one record adds at most its own key, changes nothing of an existing endpoint but its lists, and appends its own endpoint when the key is new |
| `EndpointProperties.RunFirstWins` | scripts/krakend_json_generator.py:117-155 | over a whole run, endpoints that existed before keep path, method, encoding, backend and `extra_config`; each new endpoint has exactly what the first accepted record with its key built; the dict gains exactly those records' keys |
| `EndpointProperties.NormalizeOwnLists` | scripts/krakend_json_generator.py:140-148 | the endpoint a record would create holds exactly that record's header and query keys |
| `EndpointProperties.StepLists` | scripts/krakend_json_generator.py:117-148 | one record adds its keys to the lists stored under its own key and changes no other key's lists |
| `EndpointProperties.RunHeaders` | scripts/krakend_json_generator.py:101-124 | after a run, the header list under every key holds what it held before plus the header keys of every accepted record with that key, merged or not |
| `EndpointProperties.RunParams` | scripts/krakend_json_generator.py:117-146 | after a run, the query-string list under every key holds what it held before plus the query keys of every accepted record with that key |
| `EndpointProperties.RunHasKey` | scripts/krakend_json_generator.py:117-155 | a key in the dict stays there, and the key of every accepted record gets there |
| `EndpointProperties.RowCountPos` | scripts/krakend_json_generator.py:117 | some accepted record has key `k` exactly when there is a first one, so the lookup at line 117 fails exactly for the first |
| `EndpointProperties.RunHasKeyNot` | scripts/krakend_json_generator.py:117-155 | a key that was not stored and that no accepted record has is not in the dict after the run |
| `EndpointProperties.StepOther` | scripts/krakend_json_generator.py:117-155 | a record with another key leaves the endpoint stored under `k` at its position and unchanged |
| `EndpointProperties.RunSingle` | scripts/krakend_json_generator.py:109-155 | a key that was not stored and that exactly one accepted record has ends with the endpoint that record created: lists sorted but not deduplicated (lines 109, 138, 145-146) |
| `EndpointProperties.StepMerged` | scripts/krakend_json_generator.py:117-124 | a record whose key is already stored leaves that endpoint's two lists strictly sorted (sorted, no repeats), and a record with another key keeps strictly sorted lists as they were |
| `EndpointProperties.RunMergedStrict` | scripts/krakend_json_generator.py:117-124 | when a key received a merge during the run (it was stored before and some record has it, or two records have it), both lists stored under it are strictly sorted, that is duplicate-free |
| `EndpointProperties.RunMergedLists` | scripts/krakend_json_generator.py:117-124 | such a merged list equals `sorted(list(set(xs)))` for any list `xs` holding the old list's elements and every record's keys for that key |
| `EndpointProperties.RunListsFromEmpty` | scripts/krakend_json_generator.py:109-148 | from the empty state, every returned endpoint's lists are sorted and hold exactly the keys of all accepted records with its key. With one such record the endpoint is exactly the one it created, repeats kept; with two or more its lists have no repeats |
| `EndpointProperties.RunSets` | scripts/krakend_json_generator.py:99-106 | `unique_methods` gains every accepted record's method and `unique_headers` every header key of every accepted record, and nothing else |
| `EndpointProperties.RunSkipsRows` | scripts/krakend_json_generator.py:92-94 | a skipped record changes nothing: running over the accepted records alone gives the same state |
| `Generator.Registry.constructor` | scripts/krakend_json_generator.py:196-197 | the run starts with an empty dict and two empty sets |
| `Generator.Registry.HeaderLoop` | scripts/krakend_json_generator.py:102-106 | the loop over the `,` entries keeps each entry's non-empty trimmed text before its first `:`, in order, and adds each to `unique_headers` |
| `Generator.Registry.CollectHeaders` | scripts/krakend_json_generator.py:101-106 | the header field yields exactly `HeaderKeys`: none when it is null, otherwise the loop's keys. The keys are added to `unique_headers` and nothing else changes |
| `Generator.Registry.MergeInto` | scripts/krakend_json_generator.py:117-124 | extending and then deduplicating the stored lists in place gives exactly `Merge` of the stored endpoint, and nothing else changes |
| `Generator.Registry.ReadRecord` | scripts/krakend_json_generator.py:96-115 | the loop body before the lookup computes the record's normalisation and adds its method and header keys to the sets |
| `Generator.Registry.PlaceRecord` | scripts/krakend_json_generator.py:117-155 | the lookup merges into the stored endpoint or appends the new one under its key, as `Place` says |
| `Generator.Registry.ProcessRecord` | scripts/krakend_json_generator.py:91-155 | one iteration of the loop is one `Step` of the reference semantics |
| `Generator.Registry.ProcessEndpointData` | scripts/krakend_json_generator.py:87-166 | the loop is `Run` over the normalised records, keeps `Valid`, and returns the endpoints created during the call as they stand at its end |
| `Generator.Registry.CorsLists` | scripts/krakend_json_generator.py:205-206 | the CORS lists are strictly sorted and hold exactly the collected methods and header keys |
| `Generator.Generate` | scripts/krakend_json_generator.py:195-206 | from a fresh start, the endpoints are exactly `Run` over the records from the empty state. Their keys are distinct, those of the accepted records in the order of first occurrence. Each endpoint's lists are sorted and hold exactly the keys of every accepted record with its key. A key with one record keeps that record's endpoint as created, repeated keys included; a key with two or more has lists without repeats. The CORS lists are strictly sorted and hold exactly the accepted records' methods and header keys |

## Left out

- Loading the mapping files, the host mapping and the origin list; the paths, `ENV` and writing `krakend.json`. These are file I/O. The parsed records and the host map are parameters of `Generate`.
- The `print` logging and the check after the append at lines 157-161. That membership test always succeeds and only logs.
- pandas semantics. A NaN or `None` field is `None`, and every field is otherwise a string. A missing column, which raises `KeyError` in the source, is not distinguished from a null one. Numeric services or methods are not modelled.
- The global `endpoint_auth_config` is a parameter. Configuration blocks are a small JSON datatype that is passed through, never inspected.
- All other parts of the generated configuration: base and environment blocks, `allow_origins`, `extra_config` outside CORS.
- Python's notion of white space for `strip()` is written out as a fixed code-point set. Strings are code-point sequences with no encoding or normalisation.
- Object identity is modelled by positions in a store. The model does not capture aliasing beyond the dict and the returned list.
- `Endpoints.Place`: the merge branch also tests that the stored position is in range. That always holds in a `Valid` state, the only state the loop runs in, so it adds a case the source does not have but no behaviour.
- `EndpointProperties.EndpointPathShape`: stated only for service names without `:`. A `:` in a service name could start a path variable that runs into the path.
