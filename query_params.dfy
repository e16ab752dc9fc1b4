/**
 * `process_query_params`: the keys of a query-string field such as
 * `?page=1&sort=desc`. The same segment-by-segment key extraction serves
 * the comma-separated header field.
 */
module QueryParams {
  import opened Wrappers
  import opened Strings

  /** The key one segment contributes: its trimmed text before the first `sep` (possibly empty). */
  function SegmentKey(segment: string, sep: char): (k: string)
    ensures |k| <= |segment|
    ensures k != [] ==> IsKey(k, sep)
  {
    TrimSpec(BeforeFirst(segment, sep));
    Trim(BeforeFirst(segment, sep))
  }

  /** A key as it is stored: non-empty, free of its separator, with no white space at either end. */
  predicate IsKey(k: string, sep: char)
  {
    k != [] && sep !in k && !IsSpace(k[0]) && !IsSpace(k[|k| - 1])
  }

  /** The non-empty keys of `segments`, in the order of the segments. */
  function SegmentKeys(segments: seq<string>, sep: char): (keys: seq<string>)
    ensures |keys| <= |segments|
    ensures forall i :: 0 <= i < |keys| ==> IsKey(keys[i], sep)
  {
    if segments == [] then []
    else
      var init := SegmentKeys(segments[..|segments| - 1], sep);
      var k := SegmentKey(segments[|segments| - 1], sep);
      if k == [] then init else init + [k]
  }

  /** Order is kept: the keys of two runs of segments are the keys of each, one after the other. */
  lemma {:induction false} SegmentKeysAppend(a: seq<string>, b: seq<string>, sep: char)
    ensures SegmentKeys(a + b, sep) == SegmentKeys(a, sep) + SegmentKeys(b, sep)
  {
    if b != [] {
      var b' := b[..|b| - 1];
      assert (a + b)[..|a + b| - 1] == a + b';
      assert (a + b)[|a + b| - 1] == b[|b| - 1];
      SegmentKeysAppend(a, b', sep);
    } else {
      assert a + b == a;
    }
  }

  /** Every kept key is the non-empty key of some segment. */
  lemma {:induction false} SegmentKeysSound(segments: seq<string>, sep: char, k: string)
    requires k in SegmentKeys(segments, sep)
    ensures exists i :: 0 <= i < |segments| && SegmentKey(segments[i], sep) == k
  {
    var n := |segments| - 1;
    var init := segments[..n];
    var keys := SegmentKeys(init, sep);
    if k in keys {
      SegmentKeysSound(init, sep, k);
      var i :| 0 <= i < |init| && SegmentKey(init[i], sep) == k;
      assert init[i] == segments[i];
    } else {
      assert SegmentKey(segments[n], sep) == k;
    }
  }

  /** The non-empty key of any segment is kept. */
  lemma {:induction false} SegmentKeysComplete(segments: seq<string>, sep: char, i: nat)
    requires i < |segments| && SegmentKey(segments[i], sep) != []
    ensures SegmentKey(segments[i], sep) in SegmentKeys(segments, sep)
  {
    var n := |segments| - 1;
    var init := segments[..n];
    if i < n {
      assert init[i] == segments[i];
      SegmentKeysComplete(init, sep, i);
    }
  }

  /** A key is kept exactly when some segment yields it and it is not empty. */
  lemma SegmentKeysMember(segments: seq<string>, sep: char, k: string)
    ensures k in SegmentKeys(segments, sep) <==>
            k != [] && exists i :: 0 <= i < |segments| && SegmentKey(segments[i], sep) == k
  {
    if k in SegmentKeys(segments, sep) {
      SegmentKeysSound(segments, sep, k);
    }
    if k != [] && exists i :: 0 <= i < |segments| && SegmentKey(segments[i], sep) == k {
      var i :| 0 <= i < |segments| && SegmentKey(segments[i], sep) == k;
      SegmentKeysComplete(segments, sep, i);
    }
  }

  /**
   * The keys of a query-string field: none for a null field; otherwise the
   * leading `?` characters are dropped, the rest is split on `&` and each
   * segment gives its key. Neither sorted nor deduplicated.
   */
  function QueryKeys(paramString: Option<string>): (keys: seq<string>)
    ensures forall i :: 0 <= i < |keys| ==> IsKey(keys[i], '=')
  {
    match paramString
    case None => []
    case Some(s) =>
      var t := LStrip(s, '?');
      if t == [] then [] else SegmentKeys(Split(t, '&'), '=')
  }

  /** The segments of a non-null query-string field. */
  function QuerySegments(s: string): seq<string>
  {
    Split(LStrip(s, '?'), '&')
  }

  /** Every query key is non-empty, trimmed, and holds neither `=` nor `&`. */
  lemma QueryKeysShape(paramString: Option<string>, k: string)
    requires k in QueryKeys(paramString)
    ensures IsKey(k, '=') && '&' !in k
  {
    var s := paramString.value;
    var segs := QuerySegments(s);
    SegmentKeysMember(segs, '=', k);
    var i :| 0 <= i < |segs| && SegmentKey(segs[i], '=') == k;
    TrimAvoids(BeforeFirst(segs[i], '='), '&');
  }

  /** Which keys a non-null field yields: the non-empty keys of its segments, and no others. */
  lemma QueryKeysMember(s: string, k: string)
    ensures k in QueryKeys(Some(s)) <==>
            k != [] && exists i :: 0 <= i < |QuerySegments(s)| && SegmentKey(QuerySegments(s)[i], '=') == k
  {
    var segs := QuerySegments(s);
    SegmentKeysMember(segs, '=', k);
    if LStrip(s, '?') == [] {
      assert segs == [[]];
      assert SegmentKey(segs[0], '=') == [];
    }
  }

  /** `process_query_params`, which builds its list with a loop. */
  method ProcessQueryParams(paramString: Option<string>) returns (params: seq<string>)
    ensures params == QueryKeys(paramString)
  {
    params := [];
    if paramString.Some? {
      var s := LStrip(paramString.value, '?');
      if s != [] {
        var segments := Split(s, '&');
        for j := 0 to |segments|
          invariant params == SegmentKeys(segments[..j], '=')
        {
          var key := Trim(BeforeFirst(segments[j], '='));
          assert segments[..j + 1][..j] == segments[..j];
          if key != [] {
            params := params + [key];
          }
        }
        assert segments[..|segments|] == segments;
      }
    }
  }

  /** One more segment adds its key at the end, if the key is not empty. */
  lemma SegmentKeysSnoc(segments: seq<string>, j: nat, sep: char)
    requires j < |segments|
    ensures SegmentKeys(segments[..j + 1], sep)
         == SegmentKeys(segments[..j], sep) + (if SegmentKey(segments[j], sep) == [] then [] else [SegmentKey(segments[j], sep)])
  {
    assert segments[..j + 1][..j] == segments[..j];
  }

  /** One segment gives its key, unless that key is empty. */
  lemma SegmentKeysOne(segment: string, sep: char)
    ensures SegmentKeys([segment], sep) == (if SegmentKey(segment, sep) == [] then [] else [SegmentKey(segment, sep)])
  {
    assert [segment][..0] == [];
  }

  /** The segment `key=value`, with a key that needs no trimming, gives `key`. */
  lemma SegmentKeyOf(key: string, value: string, sep: char)
    requires key != [] && sep !in key && !IsSpace(key[0]) && !IsSpace(key[|key| - 1])
    ensures SegmentKey(key + [sep] + value, sep) == key
  {
    BeforeFirstAt(key, value, sep);
    TrimSpec(key);
  }

  /**
   * A field made of `&`-separated segments, the first of which does not
   * start with `?`, yields exactly the keys of those segments, in order.
   */
  lemma QueryKeysOfJoin(segments: seq<string>)
    requires |segments| >= 1 && (segments[0] == [] || segments[0][0] != '?')
    requires forall i :: 0 <= i < |segments| ==> '&' !in segments[i]
    ensures QueryKeys(Some(Join(segments, '&'))) == SegmentKeys(segments, '=')
    ensures QueryKeys(Some("?" + Join(segments, '&'))) == SegmentKeys(segments, '=')
  {
    var t := Join(segments, '&');
    SplitJoin(segments, '&');
    if segments[0] != [] {
      JoinHead(segments, '&');
    } else if |segments| > 1 {
      assert t == segments[0] + ['&'] + Join(segments[1..], '&');
    } else {
      SegmentKeysOne([], '=');
    }
    assert LStrip(t, '?') == t;
    assert ("?" + t)[1..] == t;
    assert LStrip("?" + t, '?') == t;
  }

  lemma PageKey()
    ensures SegmentKey("page=1", '=') == "page"
  {
    assert "page=1" == "page" + ['='] + "1";
    SegmentKeyOf("page", "1", '=');
  }

  lemma SortKey()
    ensures SegmentKey("sort=desc", '=') == "sort"
  {
    assert "sort=desc" == "sort" + ['='] + "desc";
    SegmentKeyOf("sort", "desc", '=');
  }

  /** The field `?page=1&sort=desc` is its two segments joined by `&`, after one `?`. */
  lemma ExampleField()
    ensures "?page=1&sort=desc" == "?" + Join(["page=1", "sort=desc"], '&')
  {
    var segs := ["page=1", "sort=desc"];
    assert Join(segs[1..], '&') == "sort=desc";
  }

  /** The segments `page=1` and `sort=desc` give `page` and `sort`. */
  lemma ExampleKeys()
    ensures SegmentKeys(["page=1", "sort=desc"], '=') == ["page", "sort"]
  {
    assert ["page=1", "sort=desc"] == ["page=1"] + ["sort=desc"];
    SegmentKeysAppend(["page=1"], ["sort=desc"], '=');
    PageKey();
    SortKey();
    SegmentKeysOne("page=1", '=');
    SegmentKeysOne("sort=desc", '=');
  }

  /** A worked example: the field `?page=1&sort=desc` gives `page` and `sort`. */
  lemma QueryKeysExample()
    ensures QueryKeys(Some("?page=1&sort=desc")) == ["page", "sort"]
  {
    ExampleField();
    QueryKeysOfJoin(["page=1", "sort=desc"]);
    ExampleKeys();
  }

  /**
   * Keys are neither sorted nor deduplicated at this stage: two keys come
   * back in the order written, even when they are equal or out of order.
   */
  lemma QueryKeysKeepOrder(k1: string, k2: string)
    requires IsKey(k1, '=') && IsKey(k2, '=') && '&' !in k1 && '&' !in k2 && k1[0] != '?'
    ensures QueryKeys(Some(k1 + "&" + k2)) == [k1, k2]
  {
    var segs := [k1, k2];
    assert QueryKeys(Some(k1 + "&" + k2)) == SegmentKeys(segs, '=') by {
      assert k1 + "&" + k2 == Join(segs, '&');
      QueryKeysOfJoin(segs);
    }
    assert SegmentKeys(segs, '=') == [k1, k2] by {
      assert segs == [k1] + [k2];
      SegmentKeysAppend([k1], [k2], '=');
      BeforeFirstFree(k1, '=');
      BeforeFirstFree(k2, '=');
      TrimSpec(k1);
      TrimSpec(k2);
      SegmentKeysOne(k1, '=');
      SegmentKeysOne(k2, '=');
    }
  }
}
