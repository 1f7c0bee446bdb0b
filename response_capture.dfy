/**
 * Responses as src/idempotency/persistence.rs stores and replays them: the HTTP types it
 * touches, the `HeaderPairRecord` rows its header column holds, the capture loop of
 * `save_response` and the rebuild loop of `get_saved_response`.
 *
 * actix-web's `HeaderMap` keeps, for every header name, the list of its values in the order
 * they were appended, and iterates name by name in hash-table order, yielding all values of a
 * name together. The map is modelled as a map from name to non-empty value list; the hash
 * iteration order, which the program does not control, is a parameter `order` listing every
 * name once.
 */
module ResponseCapture {

  newtype Byte = b: int | 0 <= b < 0x100
  newtype U16 = x: int | 0 <= x < 0x1_0000
  newtype I16 = x: int | -0x8000 <= x < 0x8000

  type Bytes = seq<Byte>

  /** `http::StatusCode`: a code in 100..=999. */
  type StatusCode = c: U16 | 100 <= c < 1000 witness 200

  type HeaderName = string
  type HeaderValue = Bytes

  /** Every name present carries at least one value, as in `HeaderMap`. */
  predicate ValuesPresent(m: map<HeaderName, seq<HeaderValue>>) {
    forall n :: n in m ==> m[n] != []
  }

  type HeaderMap = m: map<HeaderName, seq<HeaderValue>> | ValuesPresent(m) witness map[]

  /** A response whose body has already been buffered into bytes. */
  datatype HttpResponse = HttpResponse(status: StatusCode, headers: HeaderMap, body: Bytes)

  /** One element of the `response_headers` column. */
  datatype HeaderPairRecord = HeaderPairRecord(name: HeaderName, value: HeaderValue)

  /** `order` is a possible iteration order of `h`'s names: each name exactly once. */
  predicate IsIterationOrder(order: seq<HeaderName>, h: HeaderMap) {
    && (forall i, j :: 0 <= i < j < |order| ==> order[i] != order[j])
    && (forall k :: 0 <= k < |order| ==> order[k] in h)
    && (forall n :: n in h ==> n in order)
  }

  /** `HeaderMap::get_all`: the values stored under `name`, oldest first. */
  function ValuesOf(h: HeaderMap, name: HeaderName): seq<HeaderValue> {
    if name in h then h[name] else []
  }

  /** `HeaderMap::append`: one more value under the record's name, after those already there. */
  function Append(h: HeaderMap, record: HeaderPairRecord): HeaderMap {
    h[record.name := ValuesOf(h, record.name) + [record.value]]
  }

  /** The records for one name, one per value, in value order. */
  function Group(name: HeaderName, values: seq<HeaderValue>): seq<HeaderPairRecord> {
    if values == [] then []
    else Group(name, values[..|values| - 1]) + [HeaderPairRecord(name, values[|values| - 1])]
  }

  /** What iterating `h` in `order` yields: every (name, value) entry, grouped by name. */
  function Entries(h: HeaderMap, order: seq<HeaderName>): seq<HeaderPairRecord>
    requires forall k :: 0 <= k < |order| ==> order[k] in h
  {
    if order == [] then []
    else
      var last := order[|order| - 1];
      Entries(h, order[..|order| - 1]) + Group(last, h[last])
  }

  /** The header map a builder holds after appending `records` one by one to an empty one. */
  function Rebuild(records: seq<HeaderPairRecord>): HeaderMap {
    if records == [] then map[]
    else Append(Rebuild(records[..|records| - 1]), records[|records| - 1])
  }

  /** The values of the records named `name`, in record order: an independent reading of a
      record list, used to state what capture and rebuild each keep. */
  function ValuesNamed(records: seq<HeaderPairRecord>, name: HeaderName): seq<HeaderValue> {
    if records == [] then []
    else
      var last := records[|records| - 1];
      ValuesNamed(records[..|records| - 1], name) + (if last.name == name then [last.value] else [])
  }

  // ---------------------------------------------------------------------------------------------
  // The two loops

  /** The loop of `save_response` that turns the response head's headers into records, pushing
      one record per entry the map's iterator yields. */
  method CaptureHeaders(h: HeaderMap, order: seq<HeaderName>) returns (records: seq<HeaderPairRecord>)
    requires IsIterationOrder(order, h)
    ensures records == Entries(h, order)
  {
    records := [];
    var i := 0;
    while i < |order|
      invariant 0 <= i <= |order|
      invariant records == Entries(h, order[..i])
    {
      var name := order[i];
      var values := h[name];
      var j := 0;
      while j < |values|
        invariant 0 <= j <= |values|
        invariant records == Entries(h, order[..i]) + Group(name, values[..j])
      {
        records := records + [HeaderPairRecord(name, values[j])];
        assert values[..j + 1][..j] == values[..j];
        j := j + 1;
      }
      assert values[..j] == values;
      assert order[..i + 1][..i] == order[..i];
      i := i + 1;
    }
    assert order[..i] == order;
  }

  /** The loop of `get_saved_response` that appends every stored record to a fresh builder. */
  method AppendHeaders(records: seq<HeaderPairRecord>) returns (h: HeaderMap)
    ensures h == Rebuild(records)
  {
    h := map[];
    for i := 0 to |records|
      invariant h == Rebuild(records[..i])
    {
      h := Append(h, records[i]);
      assert records[..i + 1][..i] == records[..i];
    }
    assert records[..|records|] == records;
  }

  // ---------------------------------------------------------------------------------------------
  // What capture and rebuild keep

  lemma {:induction false} ValuesNamedConcat(a: seq<HeaderPairRecord>, b: seq<HeaderPairRecord>, name: HeaderName)
    ensures ValuesNamed(a + b, name) == ValuesNamed(a, name) + ValuesNamed(b, name)
    decreases |b|
  {
    if b != [] {
      var init, last := b[..|b| - 1], b[|b| - 1];
      var tail := if last.name == name then [last.value] else [];
      assert (a + b)[..|a + b| - 1] == a + init;
      assert (a + b)[|a + b| - 1] == last;
      calc {
        ValuesNamed(a + b, name);
        ValuesNamed(a + init, name) + tail;
        { ValuesNamedConcat(a, init, name); }
        ValuesNamed(a, name) + ValuesNamed(init, name) + tail;
        ValuesNamed(a, name) + ValuesNamed(b, name);
      }
    } else {
      assert a + b == a;
    }
  }

  lemma {:induction false} GroupValues(groupName: HeaderName, values: seq<HeaderValue>, name: HeaderName)
    ensures ValuesNamed(Group(groupName, values), name) == if groupName == name then values else []
    decreases |values|
  {
    if values != [] {
      var init := values[..|values| - 1];
      ValuesNamedConcat(Group(groupName, init), [HeaderPairRecord(groupName, values[|values| - 1])], name);
      GroupValues(groupName, init, name);
      assert init + [values[|values| - 1]] == values;
    }
  }

  /** Capture emits every value of every name it iterates, in order, repeated names kept. */
  lemma {:induction false} EntriesKeepEveryValue(h: HeaderMap, order: seq<HeaderName>, name: HeaderName)
    requires forall k :: 0 <= k < |order| ==> order[k] in h
    requires forall i, j :: 0 <= i < j < |order| ==> order[i] != order[j]
    ensures ValuesNamed(Entries(h, order), name) == if name in order then h[name] else []
    decreases |order|
  {
    if order != [] {
      var init := order[..|order| - 1];
      var last := order[|order| - 1];
      assert order == init + [last];
      assert last !in init by {
        forall k | 0 <= k < |init| ensures init[k] != last {
          assert init[k] == order[k];
        }
      }
      var before := Entries(h, init);
      var group := Group(last, h[last]);
      assert Entries(h, order) == before + group;
      EntriesKeepEveryValue(h, init, name);
      ValuesNamedConcat(before, group, name);
      GroupValues(last, h[last], name);
    }
  }

  /** Rebuilding from records gives every name exactly the values recorded under it, in order. */
  lemma {:induction false} RebuildCollectsValues(records: seq<HeaderPairRecord>, name: HeaderName)
    ensures ValuesOf(Rebuild(records), name) == ValuesNamed(records, name)
    decreases |records|
  {
    if records != [] {
      RebuildCollectsValues(records[..|records| - 1], name);
    }
  }

  /** Two header maps that agree on the values of every name are equal. */
  lemma HeaderMapsEqual(a: HeaderMap, b: HeaderMap)
    requires forall n :: ValuesOf(a, n) == ValuesOf(b, n)
    ensures a == b
  {
    assert forall n :: n in a <==> ValuesOf(a, n) != [];
    assert forall n :: n in b <==> ValuesOf(b, n) != [];
    assert a.Keys == b.Keys;
    forall n | n in a ensures a[n] == b[n] {
      assert ValuesOf(a, n) == ValuesOf(b, n);
    }
  }

  /** Round trip: replaying the captured records rebuilds the original header map, names, values,
      value order and repetitions, whatever order the map was iterated in. */
  lemma HeaderRoundTrip(h: HeaderMap, order: seq<HeaderName>)
    requires IsIterationOrder(order, h)
    ensures Rebuild(Entries(h, order)) == h
  {
    forall n ensures ValuesOf(Rebuild(Entries(h, order)), n) == ValuesOf(h, n) {
      RebuildCollectsValues(Entries(h, order), n);
      EntriesKeepEveryValue(h, order, n);
    }
    HeaderMapsEqual(Rebuild(Entries(h, order)), h);
  }

  /** The example of two `Set-Cookie` values: both records, in order, and both values back. */
  lemma RepeatedNameExample(a: HeaderValue, b: HeaderValue)
    ensures var h: HeaderMap := map["set-cookie" := [a, b]];
      && Entries(h, ["set-cookie"]) == [HeaderPairRecord("set-cookie", a), HeaderPairRecord("set-cookie", b)]
      && Rebuild(Entries(h, ["set-cookie"])) == h
  {
    var h: HeaderMap := map["set-cookie" := [a, b]];
    var order: seq<HeaderName> := ["set-cookie"];
    assert [a, b][..1] == [a];
    assert [a][..0] == [];
    assert order[..0] == [];
    assert Group("set-cookie", [a]) == [HeaderPairRecord("set-cookie", a)];
    assert Group("set-cookie", [a, b]) == [HeaderPairRecord("set-cookie", a), HeaderPairRecord("set-cookie", b)];
    assert Entries(h, order) == Group("set-cookie", [a, b]);
    HeaderRoundTrip(h, ["set-cookie"]);
  }
}
