/**
 * What a run of `process_endpoint_data` over a list of records guarantees:
 * the endpoints' keys are distinct and in the order each first occurred,
 * the first record with a key fixes everything but the two lists, the lists
 * hold exactly the keys of every record with that key, skipped records make
 * no difference, and the CORS sets collect every accepted record's method
 * and header keys.
 */
module EndpointProperties {
  import opened Wrappers
  import opened Strings
  import opened Ordering
  import opened QueryParams
  import opened PathVariables
  import opened Endpoints

  // ---------------------------------------------------------------- paths

  /**
   * The endpoint path is the converted record path with `/service` in
   * front, except for `we` and `ne`, whose path is used as it is; the
   * backend's `url_pattern` is the converted path alone. (A service name
   * holding `:` could start a path variable that runs into the path.)
   */
  lemma {:induction false} EndpointPathShape(service: string, path: string)
    requires ':' !in service
    ensures EndpointPath(service, path)
         == if service == "we" || service == "ne" then UrlPattern(path) else "/" + service + UrlPattern(path)
  {
    if service != "we" && service != "ne" {
      ConvertLiteralPrefix("/" + service, path);
    }
  }

  /** The host list is the mapped host, or the default host for an unmapped service. */
  lemma {:induction false} HostShape(r: RawRecord, hosts: map<string, string>, auth: Json)
    requires Accepted(r)
    ensures var e := NewEndpoint(r, hosts, auth);
      && |e.backend| == 1
      && e.backend[0].host == [if r.service.value in hosts then hosts[r.service.value] else DefaultHost]
      && e.backend[0].urlPattern == ConvertPathVariables(r.path.value)
      && e.backend[0].encoding == e.outputEncoding == r.encodingType
      && e.backend[0].httpMethod == e.httpMethod == r.httpMethod.value
      && e.backend[0].sd == "static" && !e.backend[0].disableHostSanitize
  {
  }

  // ------------------------------------------------------ keys and order

  predicate Distinct(ks: seq<Key>)
  {
    forall i, j :: 0 <= i < j < |ks| ==> ks[i] != ks[j]
  }

  /** The keys of the accepted records, in record order, repeats included. */
  function AcceptedKeys(items: seq<Option<Normalized>>): seq<Key>
    decreases |items|
  {
    if items == [] then []
    else
      var item := items[|items| - 1];
      AcceptedKeys(items[..|items| - 1]) + (if item.Some? then [item.value.key] else [])
  }

  /** `known` followed by each key of `ks` not seen before, in the order of its first occurrence. */
  function Extend(known: seq<Key>, ks: seq<Key>): seq<Key>
    decreases |ks|
  {
    if ks == [] then known
    else
      var e := Extend(known, ks[..|ks| - 1]);
      var k := ks[|ks| - 1];
      if k in e then e else e + [k]
  }

  /** `Extend` keeps `known` in front, adds no duplicate, and holds exactly the keys of both. */
  lemma {:induction false} ExtendSpec(known: seq<Key>, ks: seq<Key>)
    requires Distinct(known)
    ensures var e := Extend(known, ks);
      && Distinct(e)
      && |known| <= |e| && e[..|known|] == known
      && forall k :: k in e <==> k in known || k in ks
    decreases |ks|
  {
    if ks != [] {
      var init := ks[..|ks| - 1];
      ExtendSpec(known, init);
      assert ks == init + [ks[|ks| - 1]];
      var e := Extend(known, init);
      assert (e + [ks[|ks| - 1]])[..|known|] == e[..|known|];
    }
  }

  /** Keys are distinct in a valid state, and the dict holds exactly the keys of the list. */
  lemma {:induction false} KeysDistinct(acc: Accumulator)
    requires Valid(acc)
    ensures Distinct(Keys(acc.store))
    ensures forall k :: k in acc.index <==> k in Keys(acc.store)
  {
    var ks := Keys(acc.store);
    forall k | k in ks
      ensures k in acc.index
    {
      var i :| 0 <= i < |ks| && ks[i] == k;
    }
    forall k | k in acc.index
      ensures k in ks
    {
      assert ks[acc.index[k]] == k;
    }
  }

  /** One record adds its key at the end of the list if the key is new, and otherwise leaves the keys alone. */
  lemma {:induction false} StepKeys(acc: Accumulator, item: Option<Normalized>)
    requires Valid(acc) && (item.Some? ==> Coherent(item.value))
    ensures Keys(Step(acc, item).store)
         == if item.Some? && item.value.key !in acc.index then Keys(acc.store) + [item.value.key] else Keys(acc.store)
  {
    if item.Some? {
      var n := item.value;
      var next := Step(acc, item);
      if n.key in acc.index {
        var i := acc.index[n.key];
        assert next.store == acc.store[i := Merge(acc.store[i], n.params, Sort(n.headers))];
      } else {
        assert next.store == acc.store + [n.created];
      }
    }
  }

  /**
   * The list of endpoints holds the keys it held before, followed by each
   * key of an accepted record that was not there yet, in the order of its
   * first occurrence.
   */
  lemma {:induction false} RunKeys(acc: Accumulator, items: seq<Option<Normalized>>)
    requires Valid(acc) && AllCoherent(items)
    ensures Keys(Run(acc, items).store) == Extend(Keys(acc.store), AcceptedKeys(items))
    decreases |items|
  {
    if items != [] {
      var init, item := items[..|items| - 1], items[|items| - 1];
      assert AllCoherent(init);
      var mid := Run(acc, init);
      RunValid(acc, init);
      RunKeys(acc, init);
      StepKeys(mid, item);
      KeysDistinct(mid);
      var ak := AcceptedKeys(init);
      if item.Some? {
        assert AcceptedKeys(items) == ak + [item.value.key];
        assert (ak + [item.value.key])[..|ak|] == ak;
      } else {
        assert AcceptedKeys(items) == ak + [] == ak;
      }
    }
  }

  /**
   * From the empty state, as the script calls it: the returned endpoints
   * have distinct keys, exactly those of the accepted records, in the order
   * of their first occurrence.
   */
  lemma {:induction false} RunKeysFromEmpty(rows: seq<RawRecord>, hosts: map<string, string>, auth: Json)
    ensures var items := NormalizeAll(rows, hosts, auth);
      var ks := Keys(Run(Empty, items).store);
      && ks == Extend([], AcceptedKeys(items))
      && Distinct(ks)
      && forall k :: k in ks <==> k in AcceptedKeys(items)
  {
    var items := NormalizeAll(rows, hosts, auth);
    NormalizeAllCoherent(rows, hosts, auth);
    RunKeys(Empty, items);
    ExtendSpec([], AcceptedKeys(items));
  }

  // ----------------------------------------------------- first record wins

  /** The first accepted record with key `k`, if there is one. */
  function FirstRecord(items: seq<Option<Normalized>>, k: Key): Option<Normalized>
    decreases |items|
  {
    if items == [] then None
    else
      var f := FirstRecord(items[..|items| - 1], k);
      var item := items[|items| - 1];
      if f.Some? then f
      else if item.Some? && item.value.key == k then item
      else None
  }

  /** Record `j` is the first accepted record with key `k`. */
  predicate FirstAt(items: seq<Option<Normalized>>, j: int, k: Key)
  {
    && 0 <= j < |items| && items[j].Some? && items[j].value.key == k
    && forall j' :: 0 <= j' < j ==> !(items[j'].Some? && items[j'].value.key == k)
  }

  /** `FirstRecord` finds the first accepted record with the key, and finds none only when there is none. */
  lemma {:induction false} FirstRecordSpec(items: seq<Option<Normalized>>, k: Key)
    ensures FirstRecord(items, k).Some? ==> exists j :: FirstAt(items, j, k) && items[j] == FirstRecord(items, k)
    ensures FirstRecord(items, k).None? ==> forall j :: 0 <= j < |items| ==> !(items[j].Some? && items[j].value.key == k)
    decreases |items|
  {
    if items != [] {
      var init := items[..|items| - 1];
      FirstRecordSpec(init, k);
      assert forall j :: 0 <= j < |init| ==> init[j] == items[j];
      if FirstRecord(init, k).Some? {
        var j :| FirstAt(init, j, k) && init[j] == FirstRecord(init, k);
        assert FirstAt(items, j, k);
      } else if FirstRecord(items, k).Some? {
        assert FirstAt(items, |items| - 1, k);
      }
    }
  }

  /** One record changes nothing of an endpoint but its two lists, and a new key is added at the end. */
  lemma {:induction false} StepSettled(acc: Accumulator, item: Option<Normalized>)
    requires Valid(acc)
    ensures var next := Step(acc, item);
      && (forall k :: k in next.index <==> k in acc.index || (item.Some? && k == item.value.key))
      && |next.store| == |acc.store| + (if item.Some? && item.value.key !in acc.index then 1 else 0)
      && (forall i :: 0 <= i < |acc.store| ==> Settled(next.store[i]) == Settled(acc.store[i]))
      && (item.Some? && item.value.key !in acc.index ==> next.store[|acc.store|] == item.value.created)
  {
    if item.Some? {
      var n := item.value;
      var next := Step(acc, item);
      if n.key in acc.index {
        var i := acc.index[n.key];
        var m := Merge(acc.store[i], n.params, Sort(n.headers));
        assert next.store == acc.store[i := m];
        assert next.index == acc.index;
      } else {
        assert next.store == acc.store + [n.created];
      }
    }
  }

  /**
   * The first record with a key fixes the endpoint's path, method, output
   * encoding, backend and `extra_config`: endpoints that existed before
   * keep all of these, and every endpoint the run creates has them as the
   * first accepted record with its key built them. The dict holds the keys
   * it held before and the keys of the accepted records, and no others.
   */
  lemma {:induction false} RunFirstWins(acc: Accumulator, items: seq<Option<Normalized>>)
    requires Valid(acc) && AllCoherent(items)
    ensures var final := Run(acc, items);
      && |acc.store| <= |final.store|
      && (forall k :: k in final.index <==> k in acc.index || FirstRecord(items, k).Some?)
      && (forall i :: 0 <= i < |acc.store| ==> Settled(final.store[i]) == Settled(acc.store[i]))
      && (forall i :: |acc.store| <= i < |final.store| ==>
            FirstRecord(items, KeyOf(final.store[i])).Some? &&
            Settled(final.store[i]) == Settled(FirstRecord(items, KeyOf(final.store[i])).value.created))
    decreases |items|
  {
    if items != [] {
      var init, item := items[..|items| - 1], items[|items| - 1];
      assert AllCoherent(init);
      var mid := Run(acc, init);
      var final := Step(mid, item);
      RunValid(acc, init);
      RunFirstWins(acc, init);
      StepSettled(mid, item);
      forall i | |acc.store| <= i < |final.store|
        ensures FirstRecord(items, KeyOf(final.store[i])).Some?
        ensures Settled(final.store[i]) == Settled(FirstRecord(items, KeyOf(final.store[i])).value.created)
      {
        var k := KeyOf(final.store[i]);
        if i < |mid.store| {
          assert KeyOf(mid.store[i]) == k;
          assert FirstRecord(init, k).Some?;
        } else {
          assert k == item.value.key;
          assert FirstRecord(init, k).None?;
        }
      }
    }
  }

  // ------------------------------------------------------------ the lists

  /** The elements of the lists stored under key `k` (none when there is no such endpoint). */
  function StoredHeaders(acc: Accumulator, k: Key): set<string>
  {
    if k in acc.index && acc.index[k] < |acc.store| then Elements(acc.store[acc.index[k]].inputHeaders) else {}
  }

  function StoredParams(acc: Accumulator, k: Key): set<string>
  {
    if k in acc.index && acc.index[k] < |acc.store| then Elements(acc.store[acc.index[k]].inputQueryStrings) else {}
  }

  /** The header keys of all accepted records with key `k`. */
  function RowHeaders(items: seq<Option<Normalized>>, k: Key): set<string>
    decreases |items|
  {
    if items == [] then {}
    else
      var item := items[|items| - 1];
      RowHeaders(items[..|items| - 1], k) + (if item.Some? && item.value.key == k then Elements(item.value.headers) else {})
  }

  /** The query keys of all accepted records with key `k`. */
  function RowParams(items: seq<Option<Normalized>>, k: Key): set<string>
    decreases |items|
  {
    if items == [] then {}
    else
      var item := items[|items| - 1];
      RowParams(items[..|items| - 1], k) + (if item.Some? && item.value.key == k then Elements(item.value.params) else {})
  }

  /**
   * A normalised record creates an endpoint holding exactly its own header
   * and query keys.
   */
  predicate CreatesOwnLists(n: Normalized)
  {
    Elements(n.created.inputHeaders) == Elements(n.headers) && Elements(n.created.inputQueryStrings) == Elements(n.params)
  }

  lemma {:induction false} NormalizeOwnLists(r: RawRecord, hosts: map<string, string>, auth: Json)
    requires Accepted(r)
    ensures CreatesOwnLists(Normalize(r, hosts, auth).value)
  {
    NewEndpointLists(r, hosts, auth);
  }

  /** One record adds its keys to the lists of its own key and touches no other list. */
  lemma {:induction false} StepLists(acc: Accumulator, item: Option<Normalized>, k: Key)
    requires Valid(acc) && (item.Some? ==> Coherent(item.value) && CreatesOwnLists(item.value))
    ensures var next := Step(acc, item);
      var own := item.Some? && item.value.key == k;
      && StoredHeaders(next, k) == StoredHeaders(acc, k) + (if own then Elements(item.value.headers) else {})
      && StoredParams(next, k) == StoredParams(acc, k) + (if own then Elements(item.value.params) else {})
  {
    if item.Some? {
      var n := item.value;
      var next := Step(acc, item);
      if n.key in acc.index {
        var i := acc.index[n.key];
        var m := Merge(acc.store[i], n.params, Sort(n.headers));
        assert next.store == acc.store[i := m];
        assert next.index == acc.index;
        if n.key == k {
          MergeLists(acc.store[i], n.params, Sort(n.headers));
          SortMembers(n.headers);
          assert Elements(Sort(n.headers)) == Elements(n.headers);
        }
      } else {
        assert next.store == acc.store + [n.created];
        assert next.index == acc.index[n.key := |acc.store|];
        if n.key != k && k in acc.index {
          assert next.store[next.index[k]] == acc.store[acc.index[k]];
        }
      }
    }
  }

  /** Every normalised record of a run creates its own lists. */
  predicate AllOwnLists(items: seq<Option<Normalized>>)
  {
    forall i :: 0 <= i < |items| && items[i].Some? ==> CreatesOwnLists(items[i].value)
  }

  lemma {:induction false} NormalizeAllOwnLists(rows: seq<RawRecord>, hosts: map<string, string>, auth: Json)
    ensures AllOwnLists(NormalizeAll(rows, hosts, auth))
  {
    var items := NormalizeAll(rows, hosts, auth);
    forall i | 0 <= i < |items| && items[i].Some?
      ensures CreatesOwnLists(items[i].value)
    {
      assert items[i] == Normalize(rows[i], hosts, auth);
      NormalizeOwnLists(rows[i], hosts, auth);
    }
  }

  /**
   * After a run the header list stored under every key holds exactly what
   * it held before and the header keys of every accepted record with that
   * key, including the records that were merged into it.
   */
  lemma {:induction false} RunHeaders(acc: Accumulator, items: seq<Option<Normalized>>, k: Key)
    requires Valid(acc) && AllCoherent(items) && AllOwnLists(items)
    ensures StoredHeaders(Run(acc, items), k) == StoredHeaders(acc, k) + RowHeaders(items, k)
    decreases |items|
  {
    if items != [] {
      var init, item := items[..|items| - 1], items[|items| - 1];
      assert AllCoherent(init) && AllOwnLists(init);
      RunValid(acc, init);
      RunHeaders(acc, init, k);
      StepLists(Run(acc, init), item, k);
    }
  }

  /** The same for the query-string list and the query keys of the records. */
  lemma {:induction false} RunParams(acc: Accumulator, items: seq<Option<Normalized>>, k: Key)
    requires Valid(acc) && AllCoherent(items) && AllOwnLists(items)
    ensures StoredParams(Run(acc, items), k) == StoredParams(acc, k) + RowParams(items, k)
    decreases |items|
  {
    if items != [] {
      var init, item := items[..|items| - 1], items[|items| - 1];
      assert AllCoherent(init) && AllOwnLists(init);
      RunValid(acc, init);
      RunParams(acc, init, k);
      StepLists(Run(acc, init), item, k);
    }
  }

  /** The number of accepted records with key `k`. */
  function RowCount(items: seq<Option<Normalized>>, k: Key): nat
    decreases |items|
  {
    if items == [] then 0
    else
      var item := items[|items| - 1];
      RowCount(items[..|items| - 1], k) + (if item.Some? && item.value.key == k then 1 else 0)
  }

  /** Key `k` leads to an endpoint whose two lists are strictly sorted, that is duplicate-free. */
  predicate MergedAt(acc: Accumulator, k: Key)
  {
    && k in acc.index && acc.index[k] < |acc.store|
    && StrictlySorted(acc.store[acc.index[k]].inputHeaders)
    && StrictlySorted(acc.store[acc.index[k]].inputQueryStrings)
  }

  /**
   * A record whose key is already stored leaves that endpoint's lists
   * strictly sorted, and a record with another key leaves lists that were
   * strictly sorted as they were.
   */
  lemma {:induction false} StepMerged(acc: Accumulator, item: Option<Normalized>, k: Key)
    requires Valid(acc)
    requires MergedAt(acc, k) || (k in acc.index && item.Some? && item.value.key == k)
    ensures MergedAt(Step(acc, item), k)
  {
    if item.Some? {
      var n := item.value;
      var next := Step(acc, item);
      var i := acc.index[k];
      if n.key in acc.index {
        var j := acc.index[n.key];
        var m := Merge(acc.store[j], n.params, Sort(n.headers));
        assert next.store == acc.store[j := m];
        assert next.index == acc.index;
        if n.key != k {
          assert i != j;
          assert next.store[i] == acc.store[i];
        }
      } else {
        assert next.store == acc.store + [n.created];
        assert next.index == acc.index[n.key := |acc.store|];
        assert next.store[i] == acc.store[i];
      }
    }
  }

  /** A key stays in the dict once it is there, and every accepted record's key gets there. */
  lemma {:induction false} RunHasKey(acc: Accumulator, items: seq<Option<Normalized>>, k: Key)
    requires k in acc.index || RowCount(items, k) >= 1
    ensures k in Run(acc, items).index
    decreases |items|
  {
    if items != [] {
      var init, item := items[..|items| - 1], items[|items| - 1];
      if k in acc.index || RowCount(init, k) >= 1 {
        RunHasKey(acc, init, k);
      }
    }
  }

  /** There is a first record with key `k` exactly when some accepted record has it. */
  lemma {:induction false} RowCountPos(items: seq<Option<Normalized>>, k: Key)
    ensures FirstRecord(items, k).Some? <==> RowCount(items, k) >= 1
    decreases |items|
  {
    if items != [] {
      RowCountPos(items[..|items| - 1], k);
    }
  }

  /** A key that is not stored and that no record has stays out of the dict. */
  lemma {:induction false} RunHasKeyNot(acc: Accumulator, items: seq<Option<Normalized>>, k: Key)
    requires k !in acc.index && RowCount(items, k) == 0
    ensures k !in Run(acc, items).index
    decreases |items|
  {
    if items != [] {
      RunHasKeyNot(acc, items[..|items| - 1], k);
    }
  }

  /** A record with another key leaves the endpoint stored under `k` where and as it was. */
  lemma {:induction false} StepOther(acc: Accumulator, item: Option<Normalized>, k: Key)
    requires Valid(acc) && k in acc.index
    requires !(item.Some? && item.value.key == k)
    ensures var next := Step(acc, item);
      && k in next.index && next.index[k] == acc.index[k]
      && next.store[acc.index[k]] == acc.store[acc.index[k]]
  {
    if item.Some? {
      var n := item.value;
      var next := Step(acc, item);
      var i := acc.index[k];
      if n.key in acc.index {
        var j := acc.index[n.key];
        assert next.store == acc.store[j := Merge(acc.store[j], n.params, Sort(n.headers))];
        assert next.index == acc.index;
        assert i != j;
      } else {
        assert next.store == acc.store + [n.created];
        assert next.index == acc.index[n.key := |acc.store|];
      }
    }
  }

  /**
   * A key that only one accepted record has, and that was not stored
   * before, ends with exactly the endpoint that record created: its lists
   * are the record's sorted keys, repeats kept (lines 109 and 138-146).
   */
  lemma {:induction false} RunSingle(acc: Accumulator, items: seq<Option<Normalized>>, k: Key)
    requires Valid(acc) && AllCoherent(items)
    requires k !in acc.index && RowCount(items, k) == 1
    ensures var final := Run(acc, items);
      && k in final.index && final.index[k] < |final.store|
      && FirstRecord(items, k).Some?
      && final.store[final.index[k]] == FirstRecord(items, k).value.created
    decreases |items|
  {
    var init, item := items[..|items| - 1], items[|items| - 1];
    assert AllCoherent(init);
    var mid := Run(acc, init);
    RunValid(acc, init);
    RowCountPos(init, k);
    if item.Some? && item.value.key == k {
      RunHasKeyNot(acc, init, k);
      var n := item.value;
      assert Step(mid, item).store == mid.store + [n.created];
      assert Step(mid, item).index == mid.index[k := |mid.store|];
    } else {
      RunSingle(acc, init, k);
      StepOther(mid, item, k);
    }
  }

  /**
   * Lines 117-124 run for key `k` whenever a record with that key finds it
   * already stored: when `k` was stored before the run and some record has
   * it, or when two records have it. Then both lists stored under `k` are
   * strictly sorted, that is sorted and free of repeats.
   */
  lemma {:induction false} RunMergedStrict(acc: Accumulator, items: seq<Option<Normalized>>, k: Key)
    requires Valid(acc) && AllCoherent(items)
    requires (k in acc.index && RowCount(items, k) >= 1) || RowCount(items, k) >= 2
    ensures MergedAt(Run(acc, items), k)
    decreases |items|
  {
    var init, item := items[..|items| - 1], items[|items| - 1];
    assert AllCoherent(init);
    var mid := Run(acc, init);
    RunValid(acc, init);
    if (k in acc.index && RowCount(init, k) >= 1) || RowCount(init, k) >= 2 {
      RunMergedStrict(acc, init, k);
    } else {
      RunHasKey(acc, init, k);
    }
    StepMerged(mid, item, k);
  }

  /**
   * A merged list is `sorted(list(set(...)))` of the old list and every
   * record's keys, whatever order they were gathered in: it equals
   * `SortedDedup` of any list holding exactly those elements.
   */
  lemma {:induction false} RunMergedLists(acc: Accumulator, items: seq<Option<Normalized>>, k: Key, hs: seq<string>, ps: seq<string>)
    requires Valid(acc) && AllCoherent(items) && AllOwnLists(items)
    requires (k in acc.index && RowCount(items, k) >= 1) || RowCount(items, k) >= 2
    requires Elements(hs) == StoredHeaders(acc, k) + RowHeaders(items, k)
    requires Elements(ps) == StoredParams(acc, k) + RowParams(items, k)
    ensures var final := Run(acc, items);
      && k in final.index && final.index[k] < |final.store|
      && final.store[final.index[k]].inputHeaders == SortedDedup(hs)
      && final.store[final.index[k]].inputQueryStrings == SortedDedup(ps)
  {
    var final := Run(acc, items);
    RunMergedStrict(acc, items, k);
    RunHeaders(acc, items, k);
    RunParams(acc, items, k);
    var e := final.store[final.index[k]];
    assert Elements(e.inputHeaders) == Elements(hs);
    assert Elements(e.inputQueryStrings) == Elements(ps);
    StrictlySortedUnique(e.inputHeaders, SortedDedup(hs)) by {
      assert forall y :: y in e.inputHeaders <==> y in Elements(e.inputHeaders);
      assert forall y :: y in hs <==> y in Elements(hs);
    }
    StrictlySortedUnique(e.inputQueryStrings, SortedDedup(ps)) by {
      assert forall y :: y in e.inputQueryStrings <==> y in Elements(e.inputQueryStrings);
      assert forall y :: y in ps <==> y in Elements(ps);
    }
  }

  /**
   * The endpoints the script returns: each one's header and query-string
   * lists are sorted and hold exactly the keys of every accepted record with
   * its key. When only one record had that key the endpoint is the one that
   * record created, repeats kept; when more than one had it the lists have
   * no repeats.
   */
  lemma {:induction false} RunListsFromEmpty(rows: seq<RawRecord>, hosts: map<string, string>, auth: Json)
    ensures var items := NormalizeAll(rows, hosts, auth);
      var store := Run(Empty, items).store;
      forall i :: 0 <= i < |store| ==>
        var e, k := store[i], KeyOf(store[i]);
        && Sorted(e.inputHeaders) && Sorted(e.inputQueryStrings)
        && Elements(e.inputHeaders) == RowHeaders(items, k)
        && Elements(e.inputQueryStrings) == RowParams(items, k)
        && (RowCount(items, k) == 1 ==> FirstRecord(items, k).Some? && e == FirstRecord(items, k).value.created)
        && (RowCount(items, k) >= 2 ==> StrictlySorted(e.inputHeaders) && StrictlySorted(e.inputQueryStrings))
  {
    var items := NormalizeAll(rows, hosts, auth);
    NormalizeAllCoherent(rows, hosts, auth);
    NormalizeAllOwnLists(rows, hosts, auth);
    RunValid(Empty, items);
    var final := Run(Empty, items);
    forall i | 0 <= i < |final.store|
      ensures var e, k := final.store[i], KeyOf(final.store[i]);
        && Sorted(e.inputHeaders) && Sorted(e.inputQueryStrings)
        && Elements(e.inputHeaders) == RowHeaders(items, k)
        && Elements(e.inputQueryStrings) == RowParams(items, k)
        && (RowCount(items, k) == 1 ==> FirstRecord(items, k).Some? && e == FirstRecord(items, k).value.created)
        && (RowCount(items, k) >= 2 ==> StrictlySorted(e.inputHeaders) && StrictlySorted(e.inputQueryStrings))
    {
      var k := KeyOf(final.store[i]);
      assert final.index[k] == i;
      RunListsAt(items, k);
    }
  }

  /** `RunListsFromEmpty` for the endpoint stored under one key. */
  lemma {:induction false} RunListsAt(items: seq<Option<Normalized>>, k: Key)
    requires AllCoherent(items) && AllOwnLists(items)
    requires var final := Run(Empty, items); k in final.index && final.index[k] < |final.store|
    ensures var final := Run(Empty, items);
      var e := final.store[final.index[k]];
      && Elements(e.inputHeaders) == RowHeaders(items, k)
      && Elements(e.inputQueryStrings) == RowParams(items, k)
      && (RowCount(items, k) == 1 ==> FirstRecord(items, k).Some? && e == FirstRecord(items, k).value.created)
      && (RowCount(items, k) >= 2 ==> StrictlySorted(e.inputHeaders) && StrictlySorted(e.inputQueryStrings))
  {
    RunHeaders(Empty, items, k);
    RunParams(Empty, items, k);
    if RowCount(items, k) == 1 {
      RunSingle(Empty, items, k);
    } else if RowCount(items, k) >= 2 {
      RunMergedStrict(Empty, items, k);
    }
  }

  // ------------------------------------------------------------- CORS sets

  /** The methods of all accepted records. */
  function RowMethods(items: seq<Option<Normalized>>): set<string>
    decreases |items|
  {
    if items == [] then {}
    else
      var item := items[|items| - 1];
      RowMethods(items[..|items| - 1]) + (if item.Some? then {item.value.httpMethod} else {})
  }

  /** The header keys of all accepted records, whatever their key. */
  function AllRowHeaders(items: seq<Option<Normalized>>): set<string>
    decreases |items|
  {
    if items == [] then {}
    else
      var item := items[|items| - 1];
      AllRowHeaders(items[..|items| - 1]) + (if item.Some? then Elements(item.value.headers) else {})
  }

  /**
   * `unique_methods` gains the method of every accepted record and
   * `unique_headers` every header key of every accepted record, merged or
   * not; nothing else is added.
   */
  lemma {:induction false} RunSets(acc: Accumulator, items: seq<Option<Normalized>>)
    ensures var final := Run(acc, items);
      && final.uniqueMethods == acc.uniqueMethods + RowMethods(items)
      && final.uniqueHeaders == acc.uniqueHeaders + AllRowHeaders(items)
    decreases |items|
  {
    if items != [] {
      RunSets(acc, items[..|items| - 1]);
    }
  }

  // --------------------------------------------------------- skipped rows

  /** The accepted records alone, in order. */
  function Present(items: seq<Option<Normalized>>): (kept: seq<Option<Normalized>>)
    ensures forall j :: 0 <= j < |kept| ==> kept[j].Some?
    decreases |items|
  {
    if items == [] then []
    else
      var item := items[|items| - 1];
      Present(items[..|items| - 1]) + (if item.Some? then [item] else [])
  }

  /** A skipped record changes nothing: running over the accepted records alone gives the same state. */
  lemma {:induction false} RunSkipsRows(acc: Accumulator, items: seq<Option<Normalized>>)
    ensures Run(acc, Present(items)) == Run(acc, items)
    decreases |items|
  {
    if items != [] {
      var init, item := items[..|items| - 1], items[|items| - 1];
      RunSkipsRows(acc, init);
      var kept := Present(init);
      if item.Some? {
        assert Present(items) == kept + [item];
        assert (kept + [item])[..|kept|] == kept;
      } else {
        assert Present(items) == kept + [] == kept;
      }
    }
  }
}
