/**
 * The data of `process_endpoint_data`: raw endpoint records, the KrakenD
 * endpoints built from them, and what one record does to the generator's
 * state. `Step` and `Run` are the reference the imperative loop in module
 * `Generator` is proved against; the lemmas below state what a whole run
 * guarantees.
 */
module Endpoints {
  import opened Wrappers
  import opened Strings
  import opened Ordering
  import opened QueryParams
  import opened PathVariables

  /** A configuration block, passed through unchanged (the auth block, `{}`). */
  datatype Json =
    | JNull
    | JBool(b: bool)
    | JNumber(text: string)
    | JString(s: string)
    | JArray(items: seq<Json>)
    | JObject(members: seq<(string, Json)>)

  const EmptyObject: Json := JObject([])

  /** The host an unmapped service is sent to. */
  const DefaultHost: string := "http://default-service.example.com"

  /** One row of the API mapping files; a null or NaN field is `None`. */
  datatype RawRecord = RawRecord(
    service: Option<string>,
    httpMethod: Option<string>,
    path: Option<string>,
    params: Option<string>,
    header: Option<string>,
    encodingType: Option<string>)

  datatype Backend = Backend(
    urlPattern: string,
    encoding: Option<string>,
    sd: string,
    httpMethod: string,
    disableHostSanitize: bool,
    host: seq<string>)

  datatype Endpoint = Endpoint(
    endpoint: string,
    httpMethod: string,
    outputEncoding: Option<string>,
    backend: seq<Backend>,
    inputHeaders: seq<string>,
    inputQueryStrings: seq<string>,
    extraConfig: Json)

  /** The key of `processed_endpoints`: `(endpoint_path, method)`. */
  datatype Key = Key(path: string, httpMethod: string)

  /**
   * What `process_endpoint_data` reads and updates: the endpoints created so
   * far in creation order, the dict `processed_endpoints` as a map from a key
   * to the position of its endpoint (the dict and the returned list share
   * the endpoint objects), and the sets `unique_methods` and `unique_headers`.
   */
  datatype Accumulator = Accumulator(
    store: seq<Endpoint>,
    index: map<Key, nat>,
    uniqueMethods: set<string>,
    uniqueHeaders: set<string>)

  const Empty: Accumulator := Accumulator([], map[], {}, {})

  function Elements(s: seq<string>): set<string>
  {
    set x | x in s
  }

  lemma ElementsSnoc(s: seq<string>, x: string)
    ensures Elements(s + [x]) == Elements(s) + {x}
  {
  }

  function KeyOf(e: Endpoint): Key
  {
    Key(e.endpoint, e.httpMethod)
  }

  /** The keys of a list of endpoints, in order. */
  function Keys(store: seq<Endpoint>): (ks: seq<Key>)
    ensures |ks| == |store|
    ensures forall i :: 0 <= i < |store| ==> ks[i] == KeyOf(store[i])
  {
    seq(|store|, i requires 0 <= i < |store| => KeyOf(store[i]))
  }

  /**
   * The dict and the list agree: every key leads to an endpoint with that
   * key, every endpoint is what its key leads to (so no two endpoints share
   * a key), and every stored header and query-string list is sorted.
   */
  predicate Valid(acc: Accumulator)
  {
    && (forall k :: k in acc.index ==> acc.index[k] < |acc.store| && KeyOf(acc.store[acc.index[k]]) == k)
    && (forall i :: 0 <= i < |acc.store| ==> KeyOf(acc.store[i]) in acc.index && acc.index[KeyOf(acc.store[i])] == i)
    && (forall i :: 0 <= i < |acc.store| ==> Sorted(acc.store[i].inputHeaders) && Sorted(acc.store[i].inputQueryStrings))
  }

  /** The header keys of a record: each comma-separated entry's trimmed text before its first `:`, if not empty. */
  function HeaderKeys(header: Option<string>): (keys: seq<string>)
    ensures forall i :: 0 <= i < |keys| ==> IsKey(keys[i], ':')
  {
    match header
    case None => []
    case Some(h) => SegmentKeys(Split(h, ','), ':')
  }

  /** The gateway path: the service name in front of the path, except for the services `we` and `ne`. */
  function EndpointPath(service: string, path: string): string
  {
    ConvertPathVariables(if service == "we" || service == "ne" then path else "/" + service + path)
  }

  /** The backend's `url_pattern`: the record's own path, never prefixed. */
  function UrlPattern(path: string): string
  {
    ConvertPathVariables(path)
  }

  /** `services_host_mapping.get(service, DefaultHost)`. */
  function HostFor(hosts: map<string, string>, service: string): string
  {
    if service in hosts then hosts[service] else DefaultHost
  }

  /** A record is processed only when its service, method and path are present. */
  predicate Accepted(r: RawRecord)
  {
    r.service.Some? && r.httpMethod.Some? && r.path.Some?
  }

  function RecordKey(r: RawRecord): Key
    requires Accepted(r)
  {
    Key(EndpointPath(r.service.value, r.path.value), r.httpMethod.value)
  }

  /** The endpoint a record creates when its key is new. */
  function NewEndpoint(r: RawRecord, hosts: map<string, string>, auth: Json): (e: Endpoint)
    requires Accepted(r)
    ensures KeyOf(e) == RecordKey(r)
    ensures Sorted(e.inputHeaders) && Sorted(e.inputQueryStrings)
  {
    var service, httpMethod, path := r.service.value, r.httpMethod.value, r.path.value;
    var headers := Sort(HeaderKeys(r.header));
    var backend := Backend(UrlPattern(path), r.encodingType, "static", httpMethod, false, [HostFor(hosts, service)]);
    Endpoint(EndpointPath(service, path), httpMethod, r.encodingType, [backend], headers, Sort(QueryKeys(r.params)),
      if "Authorization" in headers then auth else EmptyObject)
  }

  /**
   * A first occurrence stores the record's header keys and query keys
   * sorted but not deduplicated, and the auth block exactly when one of the
   * header keys is `Authorization`.
   */
  lemma {:induction false} NewEndpointLists(r: RawRecord, hosts: map<string, string>, auth: Json)
    requires Accepted(r)
    ensures var e := NewEndpoint(r, hosts, auth);
      && multiset(e.inputHeaders) == multiset(HeaderKeys(r.header))
      && multiset(e.inputQueryStrings) == multiset(QueryKeys(r.params))
      && Elements(e.inputHeaders) == Elements(HeaderKeys(r.header))
      && Elements(e.inputQueryStrings) == Elements(QueryKeys(r.params))
      && e.extraConfig == (if "Authorization" in HeaderKeys(r.header) then auth else EmptyObject)
  {
    SortMembers(HeaderKeys(r.header));
    SortMembers(QueryKeys(r.params));
  }

  /** What a merge leaves alone: everything but the two lists. */
  function Settled(e: Endpoint): Endpoint
  {
    e.(inputHeaders := [], inputQueryStrings := [])
  }

  /**
   * A later record with the same key: its query keys and headers are added
   * to the stored lists, which become `sorted(list(set(...)))`.
   */
  function Merge(e: Endpoint, params: seq<string>, headers: seq<string>): (m: Endpoint)
    ensures Settled(m) == Settled(e) && KeyOf(m) == KeyOf(e)
    ensures StrictlySorted(m.inputQueryStrings) && StrictlySorted(m.inputHeaders)
  {
    e.(inputQueryStrings := SortedDedup(e.inputQueryStrings + params),
       inputHeaders := SortedDedup(e.inputHeaders + headers))
  }

  /** A merged list holds each element of the old list and of the new one, once. */
  lemma {:induction false} MergeLists(e: Endpoint, params: seq<string>, headers: seq<string>)
    ensures var m := Merge(e, params, headers);
      && Elements(m.inputQueryStrings) == Elements(e.inputQueryStrings) + Elements(params)
      && Elements(m.inputHeaders) == Elements(e.inputHeaders) + Elements(headers)
  {
  }

  /**
   * A record after the per-record work of the loop body: its key, method,
   * query keys, header keys (in field order) and the endpoint it would
   * create. Skipped records normalise to `None`.
   */
  datatype Normalized = Normalized(
    key: Key,
    httpMethod: string,
    params: seq<string>,
    headers: seq<string>,
    created: Endpoint)

  /** The endpoint a normalised record would create carries its key and sorted lists. */
  predicate Coherent(n: Normalized)
  {
    KeyOf(n.created) == n.key && Sorted(n.created.inputHeaders) && Sorted(n.created.inputQueryStrings)
  }

  /** The loop body up to the dict lookup: skip the record, or compute its key, lists and endpoint. */
  function Normalize(r: RawRecord, hosts: map<string, string>, auth: Json): (n: Option<Normalized>)
    ensures n.Some? <==> Accepted(r)
    ensures n.Some? ==> Coherent(n.value) && n.value.httpMethod == r.httpMethod.value
  {
    if !Accepted(r) then None
    else Some(Normalized(RecordKey(r), r.httpMethod.value, QueryKeys(r.params), HeaderKeys(r.header),
                         NewEndpoint(r, hosts, auth)))
  }

  /** The records of a run, each normalised. */
  function NormalizeAll(rows: seq<RawRecord>, hosts: map<string, string>, auth: Json): (items: seq<Option<Normalized>>)
    ensures |items| == |rows|
    ensures forall i :: 0 <= i < |rows| ==> items[i] == Normalize(rows[i], hosts, auth)
  {
    seq(|rows|, i requires 0 <= i < |rows| => Normalize(rows[i], hosts, auth))
  }

  /**
   * Where a record's endpoint goes: merged into the endpoint already stored
   * under its key, or appended as a new endpoint under a new key. (The
   * position test always holds in a `Valid` state.)
   */
  function Place(acc: Accumulator, n: Normalized): Accumulator
  {
    if n.key in acc.index && acc.index[n.key] < |acc.store| then
      var i := acc.index[n.key];
      acc.(store := acc.store[i := Merge(acc.store[i], n.params, Sort(n.headers))])
    else
      acc.(store := acc.store + [n.created], index := acc.index[n.key := |acc.store|])
  }

  /** Where an endpoint goes does not depend on the two sets. */
  lemma PlaceSets(acc: Accumulator, n: Normalized, methods: set<string>, headers: set<string>)
    ensures Valid(acc.(uniqueMethods := methods, uniqueHeaders := headers)) == Valid(acc)
    ensures Place(acc.(uniqueMethods := methods, uniqueHeaders := headers), n)
         == Place(acc, n).(uniqueMethods := methods, uniqueHeaders := headers)
  {
  }

  /** One iteration of the loop over the records. */
  function Step(acc: Accumulator, item: Option<Normalized>): Accumulator
  {
    match item
    case None => acc
    case Some(n) =>
      Place(acc, n).(uniqueMethods := acc.uniqueMethods + {n.httpMethod},
                     uniqueHeaders := acc.uniqueHeaders + Elements(n.headers))
  }

  /** The loop over all records, from a given state. */
  function Run(acc: Accumulator, items: seq<Option<Normalized>>): Accumulator
    decreases |items|
  {
    if items == [] then acc
    else Step(Run(acc, items[..|items| - 1]), items[|items| - 1])
  }

  /** The loop over one more record is one more step. */
  lemma RunSnoc(acc: Accumulator, items: seq<Option<Normalized>>, j: nat)
    requires j < |items|
    ensures Run(acc, items[..j + 1]) == Step(Run(acc, items[..j]), items[j])
  {
    assert items[..j + 1][..j] == items[..j];
  }

  /** A step never shortens the list of endpoints. */
  lemma StepGrows(acc: Accumulator, item: Option<Normalized>)
    ensures |Step(acc, item).store| >= |acc.store|
  {
  }

  /** Every normalised record the loop can see is coherent. */
  predicate AllCoherent(items: seq<Option<Normalized>>)
  {
    forall i :: 0 <= i < |items| && items[i].Some? ==> Coherent(items[i].value)
  }

  /** Replacing an endpoint by one with the same key and sorted lists keeps the dict and the list in step. */
  lemma {:induction false} ReplaceValid(acc: Accumulator, i: nat, m: Endpoint)
    requires Valid(acc) && i < |acc.store| && KeyOf(m) == KeyOf(acc.store[i])
    requires Sorted(m.inputHeaders) && Sorted(m.inputQueryStrings)
    ensures Valid(acc.(store := acc.store[i := m]))
  {
  }

  /** Adding an endpoint under a new key, at the end of the list, keeps the dict and the list in step. */
  lemma {:induction false} AppendValid(acc: Accumulator, e: Endpoint)
    requires Valid(acc) && KeyOf(e) !in acc.index
    requires Sorted(e.inputHeaders) && Sorted(e.inputQueryStrings)
    ensures Valid(acc.(store := acc.store + [e], index := acc.index[KeyOf(e) := |acc.store|]))
  {
    var next := acc.(store := acc.store + [e], index := acc.index[KeyOf(e) := |acc.store|]);
    assert forall i :: 0 <= i < |acc.store| ==> next.store[i] == acc.store[i];
  }

  /** Every record keeps the dict and the list in step, and the stored lists sorted. */
  lemma {:induction false} StepValid(acc: Accumulator, item: Option<Normalized>)
    requires Valid(acc)
    requires item.Some? ==> Coherent(item.value)
    ensures Valid(Step(acc, item))
  {
    if item.Some? {
      var n := item.value;
      if n.key in acc.index {
        var i := acc.index[n.key];
        var m := Merge(acc.store[i], n.params, Sort(n.headers));
        ReplaceValid(acc, i, m);
        assert Place(acc, n).store == acc.store[i := m];
      } else {
        AppendValid(acc, n.created);
      }
    }
  }

  lemma {:induction false} RunValid(acc: Accumulator, items: seq<Option<Normalized>>)
    requires Valid(acc) && AllCoherent(items)
    ensures Valid(Run(acc, items))
    decreases |items|
  {
    if items != [] {
      var init := items[..|items| - 1];
      assert AllCoherent(init);
      RunValid(acc, init);
      StepValid(Run(acc, init), items[|items| - 1]);
    }
  }

  /** The records of any run, normalised, are coherent. */
  lemma {:induction false} NormalizeAllCoherent(rows: seq<RawRecord>, hosts: map<string, string>, auth: Json)
    ensures AllCoherent(NormalizeAll(rows, hosts, auth))
  {
    var items := NormalizeAll(rows, hosts, auth);
    forall i | 0 <= i < |items| && items[i].Some?
      ensures Coherent(items[i].value)
    {
      assert items[i] == Normalize(rows[i], hosts, auth);
    }
  }
}
