/**
 * `process_endpoint_data` as the loop it is, over the state it mutates in
 * place, and the CORS lists the script derives from that state.
 */
module Generator {
  import opened Wrappers
  import opened Strings
  import opened Ordering
  import opened QueryParams
  import opened PathVariables
  import opened Endpoints
  import opened EndpointProperties

  /**
   * The objects `process_endpoint_data` updates: the endpoints created so
   * far (each reachable from the returned list and from the dict),
   * `processed_endpoints` as a map from a key to an endpoint's position,
   * and the sets `unique_methods` and `unique_headers`.
   */
  class Registry {
    var store: seq<Endpoint>
    var index: map<Key, nat>
    var uniqueMethods: set<string>
    var uniqueHeaders: set<string>

    function State(): Accumulator
      reads this
    {
      Accumulator(store, index, uniqueMethods, uniqueHeaders)
    }

    /** An empty dict and two empty sets, as the script starts. */
    constructor()
      ensures State() == Empty
    {
      store, index, uniqueMethods, uniqueHeaders := [], map[], {}, {};
    }

    /**
     * The header loop of one record: every entry's trimmed text before its
     * first `:` that is not empty is kept, in entry order, and added to
     * `unique_headers`.
     */
    method HeaderLoop(entries: seq<string>) returns (headers: seq<string>)
      modifies this`uniqueHeaders
      ensures headers == SegmentKeys(entries, ':')
      ensures uniqueHeaders == old(uniqueHeaders) + Elements(headers)
    {
      headers := [];
      for j := 0 to |entries|
        invariant headers == SegmentKeys(entries[..j], ':')
        invariant uniqueHeaders == old(uniqueHeaders) + Elements(headers)
      {
        var headerKey := SegmentKey(entries[j], ':');
        SegmentKeysSnoc(entries, j, ':');
        if headerKey != [] {
          ElementsSnoc(headers, headerKey);
          headers := headers + [headerKey];
          uniqueHeaders := uniqueHeaders + {headerKey};
        }
      }
      assert entries[..|entries|] == entries;
    }

    /** The header field of one record: no keys when it is null, otherwise the loop over its `,` entries. */
    method CollectHeaders(header: Option<string>) returns (headers: seq<string>)
      modifies this`uniqueHeaders
      ensures headers == HeaderKeys(header)
      ensures uniqueHeaders == old(uniqueHeaders) + Elements(headers)
      ensures store == old(store) && index == old(index) && uniqueMethods == old(uniqueMethods)
    {
      headers := [];
      if header.Some? {
        headers := HeaderLoop(Split(header.value, ','));
      }
    }

    /** A repeated key: extend the stored lists, then replace each by `sorted(list(set(...)))`. */
    method MergeInto(i: nat, params: seq<string>, headers: seq<string>)
      requires i < |store|
      modifies this
      ensures store == old(store)[i := Merge(old(store)[i], params, headers)]
      ensures index == old(index) && uniqueMethods == old(uniqueMethods) && uniqueHeaders == old(uniqueHeaders)
    {
      var existing := store[i];
      var queryStrings := existing.inputQueryStrings + params;
      var inputHeaders := existing.inputHeaders + headers;
      existing := existing.(inputQueryStrings := SortedDedup(queryStrings), inputHeaders := SortedDedup(inputHeaders));
      store := store[i := existing];
    }

    /**
     * The loop body before the dict lookup, for a record that is not
     * skipped: its query keys, its method and header keys added to the
     * sets, and its key.
     */
    method ReadRecord(r: RawRecord, hosts: map<string, string>, auth: Json) returns (n: Normalized)
      requires Accepted(r)
      modifies this
      ensures Normalize(r, hosts, auth) == Some(n)
      ensures uniqueMethods == old(uniqueMethods) + {n.httpMethod}
      ensures uniqueHeaders == old(uniqueHeaders) + Elements(n.headers)
      ensures store == old(store) && index == old(index)
    {
      var service, httpMethod, path := r.service.value, r.httpMethod.value, r.path.value;
      var params := ProcessQueryParams(r.params);
      uniqueMethods := uniqueMethods + {httpMethod};
      var headers := CollectHeaders(r.header);
      var key := Key(EndpointPath(service, path), httpMethod);
      n := Normalized(key, httpMethod, params, headers, NewEndpoint(r, hosts, auth));
    }

    /** The dict lookup: merge into the endpoint stored under the key, or add the new endpoint. */
    method PlaceRecord(n: Normalized)
      requires Valid(State())
      modifies this
      ensures State() == Place(old(State()), n)
    {
      if n.key in index {
        MergeInto(index[n.key], n.params, Sort(n.headers));
      } else {
        store := store + [n.created];
        index := index[n.key := |store| - 1];
      }
    }

    /** The body of the loop over the records, for one record. */
    method ProcessRecord(r: RawRecord, hosts: map<string, string>, auth: Json)
      requires Valid(State())
      modifies this
      ensures State() == Step(old(State()), Normalize(r, hosts, auth))
    {
      if r.service.None? || r.httpMethod.None? || r.path.None? {
        return;
      }
      ghost var before := State();
      var n := ReadRecord(r, hosts, auth);
      PlaceSets(before, n, uniqueMethods, uniqueHeaders);
      assert State() == before.(uniqueMethods := uniqueMethods, uniqueHeaders := uniqueHeaders);
      PlaceRecord(n);
    }

    /**
     * `process_endpoint_data`: the endpoints it returns are the ones it
     * created, as they stand at the end of the call, so merges made by later
     * records of the same call show in them.
     */
    method ProcessEndpointData(rows: seq<RawRecord>, hosts: map<string, string>, auth: Json)
      returns (endpoints: seq<Endpoint>)
      requires Valid(State())
      modifies this
      ensures Valid(State())
      ensures State() == Run(old(State()), NormalizeAll(rows, hosts, auth))
      ensures |old(store)| <= |store| && endpoints == store[|old(store)|..]
    {
      ghost var items := NormalizeAll(rows, hosts, auth);
      ghost var start := State();
      NormalizeAllCoherent(rows, hosts, auth);
      var first := |store|;
      for j := 0 to |rows|
        invariant Valid(State())
        invariant State() == Run(start, items[..j])
        invariant first <= |store|
      {
        ghost var before := State();
        ProcessRecord(rows[j], hosts, auth);
        RunSnoc(start, items, j);
        StepValid(before, items[j]);
        StepGrows(before, items[j]);
      }
      assert items[..|rows|] == items;
      endpoints := store[first..];
    }

    /** Lines 205-206: `sorted(list(all_methods))` and `sorted(list(all_headers))`. */
    method CorsLists() returns (allowMethods: seq<string>, allowHeaders: seq<string>)
      ensures StrictlySorted(allowMethods) && forall m :: m in allowMethods <==> m in uniqueMethods
      ensures StrictlySorted(allowHeaders) && forall h :: h in allowHeaders <==> h in uniqueHeaders
    {
      allowMethods := SortedList(uniqueMethods);
      allowHeaders := SortedList(uniqueHeaders);
    }
  }

  /**
   * The script end to end, from an empty dict and empty sets: the gateway
   * endpoints have distinct keys, those of the accepted records in the
   * order of their first occurrence, each endpoint's lists hold the keys of
   * every record with its key (the one record's sorted keys, repeats kept,
   * when it is alone; without repeats once records were merged),
   * and the CORS lists are the sorted methods and header keys of every
   * accepted record.
   */
  method Generate(rows: seq<RawRecord>, hosts: map<string, string>, auth: Json)
    returns (endpoints: seq<Endpoint>, allowMethods: seq<string>, allowHeaders: seq<string>)
    ensures endpoints == Run(Empty, NormalizeAll(rows, hosts, auth)).store
    ensures var items := NormalizeAll(rows, hosts, auth);
      && Keys(endpoints) == Extend([], AcceptedKeys(items))
      && Distinct(Keys(endpoints))
      && (forall k :: k in Keys(endpoints) <==> k in AcceptedKeys(items))
    ensures StrictlySorted(allowMethods) && forall m :: m in allowMethods <==> m in RowMethods(NormalizeAll(rows, hosts, auth))
    ensures StrictlySorted(allowHeaders) && forall h :: h in allowHeaders <==> h in AllRowHeaders(NormalizeAll(rows, hosts, auth))
    ensures var items := NormalizeAll(rows, hosts, auth);
      forall i :: 0 <= i < |endpoints| ==>
        var e, k := endpoints[i], KeyOf(endpoints[i]);
        && Sorted(e.inputHeaders) && Sorted(e.inputQueryStrings)
        && Elements(e.inputHeaders) == RowHeaders(items, k)
        && Elements(e.inputQueryStrings) == RowParams(items, k)
        && (RowCount(items, k) == 1 ==> FirstRecord(items, k).Some? && e == FirstRecord(items, k).value.created)
        && (RowCount(items, k) >= 2 ==> StrictlySorted(e.inputHeaders) && StrictlySorted(e.inputQueryStrings))
  {
    var registry := new Registry();
    endpoints := registry.ProcessEndpointData(rows, hosts, auth);
    allowMethods, allowHeaders := registry.CorsLists();
    RunKeysFromEmpty(rows, hosts, auth);
    RunSets(Empty, NormalizeAll(rows, hosts, auth));
    RunListsFromEmpty(rows, hosts, auth);
    assert endpoints == registry.store;
  }
}
