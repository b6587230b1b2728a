/** Spans grouped by resource and scope for OTLP (gateway/trace_exporter.py). */
module SpanGroups {

  datatype Value = Str(s: string) | Int(i: int) | Real(r: real) | Bool(b: bool)

  type Attributes = map<string, Value>

  datatype Record<T> = Record(resource: Attributes, scope: Attributes, span: T)

  /** A resource-spans entry: the resource and scope of its first record, and its spans. */
  datatype Group<T> = Group(resource: Attributes, scope: Attributes, spans: seq<T>)

  /** The two texts a record is grouped by. */
  type Key = (string, string)

  function KeyOf<T>(dump: Attributes -> string, r: Record<T>): Key
  {
    (dump(r.resource), dump(r.scope))
  }

  function GroupKey<T>(dump: Attributes -> string, g: Group<T>): Key
  {
    (dump(g.resource), dump(g.scope))
  }

  // --------------------------------------------------------- what grouping means

  /** The keys in the order of their first appearance. */
  function FirstSeen<T>(dump: Attributes -> string, records: seq<Record<T>>): seq<Key>
  {
    if records == [] then []
    else
      var seen, k := FirstSeen(dump, records[..|records| - 1]), KeyOf(dump, records[|records| - 1]);
      if k in seen then seen else seen + [k]
  }

  /** The spans of the records with a key, in input order. */
  function SpansOf<T>(dump: Attributes -> string, records: seq<Record<T>>, k: Key): seq<T>
  {
    if records == [] then []
    else
      SpansOf(dump, records[..|records| - 1], k)
      + (if KeyOf(dump, records[|records| - 1]) == k then [records[|records| - 1].span] else [])
  }

  /** Where a key first appears, or the number of records. */
  function FirstIndex<T>(dump: Attributes -> string, records: seq<Record<T>>, k: Key): (i: nat)
    ensures i <= |records|
  {
    if records == [] then 0
    else
      var i := FirstIndex(dump, records[..|records| - 1], k);
      if i < |records| - 1 || KeyOf(dump, records[|records| - 1]) == k then i else |records|
  }

  lemma {:induction false} UnseenHasNoSpans<T>(dump: Attributes -> string, records: seq<Record<T>>, k: Key)
    ensures k !in FirstSeen(dump, records) <==> SpansOf(dump, records, k) == []
  {
    if records != [] {
      UnseenHasNoSpans(dump, records[..|records| - 1], k);
    }
  }

  // --------------------------------------------------------------- the method

  class Bucket<T> {
    const resource: Attributes
    const scope: Attributes
    var spans: seq<T>

    constructor (resource: Attributes, scope: Attributes)
      ensures this.resource == resource && this.scope == scope && spans == []
    {
      this.resource := resource;
      this.scope := scope;
      this.spans := [];
    }
  }

  /** The first record with a key has this resource and this scope. */
  predicate FirstHas<T>(dump: Attributes -> string, records: seq<Record<T>>, k: Key, resource: Attributes, scope: Attributes)
  {
    var i := FirstIndex(dump, records, k);
    i < |records| && records[i].resource == resource && records[i].scope == scope
  }

  ghost predicate HoldsSpans<T>(dump: Attributes -> string, records: seq<Record<T>>, k: Key, b: Bucket<T>)
    reads b
  {
    FirstHas(dump, records, k, b.resource, b.scope) && b.spans == SpansOf(dump, records, k)
  }

  lemma Snoc<T>(dump: Attributes -> string, records: seq<Record<T>>, r: Record<T>, k: Key)
    ensures FirstSeen(dump, records + [r])
            == if KeyOf(dump, r) in FirstSeen(dump, records) then FirstSeen(dump, records) else FirstSeen(dump, records) + [KeyOf(dump, r)]
    ensures SpansOf(dump, records + [r], k) == SpansOf(dump, records, k) + if KeyOf(dump, r) == k then [r.span] else []
    ensures FirstIndex(dump, records + [r], k)
            == if FirstIndex(dump, records, k) < |records| || KeyOf(dump, r) == k then FirstIndex(dump, records, k) else |records| + 1
  {
    assert (records + [r])[..|records + [r]| - 1] == records;
  }

  /** The dictionary of groups built so far, its keys in insertion order. */
  class Dictionary<T> {
    const dump: Attributes -> string
    var order: seq<Key>
    var grouped: map<Key, Bucket<T>>
    ghost var records: seq<Record<T>>

    ghost predicate Valid()
      reads this, grouped.Values
    {
      && order == FirstSeen(dump, records)
      && (forall k :: k in grouped <==> k in order)
      && (forall j, k :: j in grouped && k in grouped && j != k ==> grouped[j] != grouped[k])
      && forall k :: k in grouped ==> HoldsSpans(dump, records, k, grouped[k])
    }

    constructor (dump: Attributes -> string)
      ensures Valid() && records == [] && grouped == map[] && this.dump == dump
    {
      this.dump := dump;
      order, grouped, records := [], map[], [];
    }

    /** A group of its own for a key that has none yet. */
    method Open(key: Key, r: Record<T>)
      requires Valid() && key == KeyOf(dump, r)
      modifies this`order, this`grouped
      ensures key in grouped && (forall j, k :: j in grouped && k in grouped && j != k ==> grouped[j] != grouped[k])
      ensures forall k :: k in grouped ==> fresh(grouped[k]) || (k in old(grouped) && grouped[k] == old(grouped)[k])
      ensures order == if key in old(order) then old(order) else old(order) + [key]
      ensures forall k :: k in grouped <==> k in order
      ensures forall k :: k in grouped ==>
                FirstHas(dump, records + [r], k, grouped[k].resource, grouped[k].scope) && grouped[k].spans == SpansOf(dump, records, k)
    {
      hide SpansOf;
      hide FirstSeen;
      hide FirstIndex;
      forall k | k in grouped
        ensures FirstHas(dump, records + [r], k, grouped[k].resource, grouped[k].scope)
      {
        Snoc(dump, records, r, k);
      }
      if key !in grouped {
        UnseenHasNoSpans(dump, records, key);
        IndexOfSeen(dump, records, key);
        Snoc(dump, records, r, key);
        var bucket := new Bucket<T>(r.resource, r.scope);
        grouped := grouped[key := bucket];
        order := order + [key];
      }
    }

    /** One pass of the loop: the record's span joins its group, a new one if need be. */
    method Add(r: Record<T>)
      requires Valid()
      modifies this, grouped.Values
      ensures Valid() && records == old(records) + [r]
      ensures forall k :: k in grouped ==> fresh(grouped[k]) || grouped[k] in old(grouped.Values)
    {
      hide SpansOf;
      hide FirstSeen;
      hide KeyOf;
      hide FirstHas;
      var key := KeyOf(dump, r);
      Open(key, r);
      var bucket := grouped[key];
      bucket.spans := bucket.spans + [r.span];
      ghost var before := records;
      records := records + [r];
      forall k | k in grouped
        ensures HoldsSpans(dump, records, k, grouped[k])
      {
        Snoc(dump, before, r, k);
      }
      Snoc(dump, before, r, key);
    }
  }

  /** What the payload promises: one group per key in the order of first appearance, each
      with the resource and scope of its first record and exactly its spans in input order. */
  ghost predicate Grouped<T>(dump: Attributes -> string, records: seq<Record<T>>, payload: seq<Group<T>>)
  {
    var keys := FirstSeen(dump, records);
    |payload| == |keys|
    && forall i :: 0 <= i < |keys| ==> FirstHas(dump, records, keys[i], payload[i].resource, payload[i].scope) && payload[i].spans == SpansOf(dump, records, keys[i])
  }

  /** build_otlp_traces_payload, with `dump` for json.dumps over sorted keys and the spans
      as they are rendered. */
  method BuildOtlpTracesPayload<T>(dump: Attributes -> string, records: seq<Record<T>>) returns (payload: seq<Group<T>>)
    ensures Grouped(dump, records, payload)
  {
    var dict := new Dictionary<T>(dump);
    for i := 0 to |records|
      invariant dict.Valid() && dict.records == records[..i] && dict.dump == dump && fresh(dict)
      invariant forall k :: k in dict.grouped ==> fresh(dict.grouped[k])
    {
      dict.Add(records[i]);
    }
    assert records[..|records|] == records;
    payload := [];
    var order, grouped := dict.order, dict.grouped;
    for i := 0 to |order|
      invariant |payload| == i
      invariant forall j :: 0 <= j < i ==> FirstHas(dump, records, order[j], payload[j].resource, payload[j].scope) && payload[j].spans == SpansOf(dump, records, order[j])
    {
      assert order[i] in grouped;
      var bucket := grouped[order[i]];
      payload := payload + [Group(bucket.resource, bucket.scope, bucket.spans)];
    }
  }

  // ------------------------------------------------- what follows for a payload

  lemma {:induction false} KeysDistinct<T>(dump: Attributes -> string, records: seq<Record<T>>)
    ensures forall i, j :: 0 <= i < j < |FirstSeen(dump, records)| ==> FirstSeen(dump, records)[i] != FirstSeen(dump, records)[j]
    ensures forall r <- records :: KeyOf(dump, r) in FirstSeen(dump, records)
    ensures forall k <- FirstSeen(dump, records) :: exists r <- records :: KeyOf(dump, r) == k
  {
    if records != [] {
      var front, last := records[..|records| - 1], records[|records| - 1];
      KeysDistinct(dump, front);
      assert records == front + [last];
      forall k | k in FirstSeen(dump, records)
        ensures exists r <- records :: KeyOf(dump, r) == k
      {
        if k in FirstSeen(dump, front) {
          var r :| r in front && KeyOf(dump, r) == k;
          assert r in records;
        } else {
          assert last in records;
        }
      }
    }
  }

  lemma {:induction false} IndexOfSeen<T>(dump: Attributes -> string, records: seq<Record<T>>, k: Key)
    ensures k in FirstSeen(dump, records) <==> FirstIndex(dump, records, k) < |records|
    ensures FirstIndex(dump, records, k) < |records| ==> KeyOf(dump, records[FirstIndex(dump, records, k)]) == k
    ensures forall i :: 0 <= i < FirstIndex(dump, records, k) ==> KeyOf(dump, records[i]) != k
  {
    if records != [] {
      IndexOfSeen(dump, records[..|records| - 1], k);
    }
  }

  /** The groups stand in the order in which their first records came. */
  lemma {:induction false} InOrderOfAppearance<T>(dump: Attributes -> string, records: seq<Record<T>>, i: nat, j: nat)
    requires i < j < |FirstSeen(dump, records)|
    ensures FirstIndex(dump, records, FirstSeen(dump, records)[i]) < FirstIndex(dump, records, FirstSeen(dump, records)[j])
  {
    var front := records[..|records| - 1];
    var seen := FirstSeen(dump, front);
    IndexOfSeen(dump, front, FirstSeen(dump, records)[i]);
    IndexOfSeen(dump, front, FirstSeen(dump, records)[j]);
    if j < |seen| {
      InOrderOfAppearance(dump, front, i, j);
      assert seen[i] in seen && seen[j] in seen;
    } else {
      assert seen[i] in seen;
    }
  }

  function Total<T>(dump: Attributes -> string, records: seq<Record<T>>, keys: seq<Key>): nat
  {
    if keys == [] then 0 else Total(dump, records, keys[..|keys| - 1]) + |SpansOf(dump, records, keys[|keys| - 1])|
  }

  /** One more record adds one span to its own group and none to the others. */
  lemma {:induction false} TotalGrows<T>(dump: Attributes -> string, records: seq<Record<T>>, keys: seq<Key>)
    requires records != [] && forall i, j :: 0 <= i < j < |keys| ==> keys[i] != keys[j]
    ensures Total(dump, records, keys)
            == Total(dump, records[..|records| - 1], keys) + (if KeyOf(dump, records[|records| - 1]) in keys then 1 else 0)
  {
    if keys != [] {
      TotalGrows(dump, records, keys[..|keys| - 1]);
      assert keys == keys[..|keys| - 1] + [keys[|keys| - 1]];
    }
  }

  lemma TotalSnoc<T>(dump: Attributes -> string, records: seq<Record<T>>, keys: seq<Key>, k: Key)
    ensures Total(dump, records, keys + [k]) == Total(dump, records, keys) + |SpansOf(dump, records, k)|
  {
    assert (keys + [k])[..|keys + [k]| - 1] == keys;
  }

  /** Every record is in the payload exactly once: the groups, which have distinct keys,
      hold as many spans together as there are records. */
  lemma {:induction false} EveryRecordOnce<T>(dump: Attributes -> string, records: seq<Record<T>>)
    ensures Total(dump, records, FirstSeen(dump, records)) == |records|
  {
    if records != [] {
      var front := records[..|records| - 1];
      var k, seen := KeyOf(dump, records[|records| - 1]), FirstSeen(dump, front);
      EveryRecordOnce(dump, front);
      KeysDistinct(dump, front);
      TotalGrows(dump, records, seen);
      if k !in seen {
        UnseenHasNoSpans(dump, front, k);
        TotalSnoc(dump, records, seen, k);
      }
    }
  }

  function SpanCount<T>(payload: seq<Group<T>>): nat
  {
    if payload == [] then 0 else SpanCount(payload[..|payload| - 1]) + |payload[|payload| - 1].spans|
  }

  lemma {:induction false} CountIsTotal<T>(dump: Attributes -> string, records: seq<Record<T>>, keys: seq<Key>, payload: seq<Group<T>>)
    requires |payload| == |keys| && forall i :: 0 <= i < |keys| ==> payload[i].spans == SpansOf(dump, records, keys[i])
    ensures SpanCount(payload) == Total(dump, records, keys)
  {
    if keys != [] {
      CountIsTotal(dump, records, keys[..|keys| - 1], payload[..|payload| - 1]);
    }
  }

  /** A payload loses no record and repeats none, and no two of its groups have one key. */
  lemma PayloadConserves<T>(dump: Attributes -> string, records: seq<Record<T>>, payload: seq<Group<T>>)
    requires Grouped(dump, records, payload)
    ensures SpanCount(payload) == |records|
    ensures forall i, j :: 0 <= i < j < |payload| ==> GroupKey(dump, payload[i]) != GroupKey(dump, payload[j])
    ensures forall i :: 0 <= i < |payload| ==> payload[i].spans != []
  {
    var keys := FirstSeen(dump, records);
    CountIsTotal(dump, records, keys, payload);
    EveryRecordOnce(dump, records);
    GroupsAreOfRecords(dump, records, payload);
    KeysDistinct(dump, records);
    forall i | 0 <= i < |payload|
      ensures payload[i].spans != []
    {
      UnseenHasNoSpans(dump, records, keys[i]);
    }
  }

  /** The resource and scope of a group are those of a record, and dump to the group's key. */
  lemma GroupsAreOfRecords<T>(dump: Attributes -> string, records: seq<Record<T>>, payload: seq<Group<T>>)
    requires Grouped(dump, records, payload)
    ensures forall i :: 0 <= i < |payload| ==>
              && GroupKey(dump, payload[i]) == FirstSeen(dump, records)[i]
              && exists r <- records :: r.resource == payload[i].resource && r.scope == payload[i].scope
  {
    var keys := FirstSeen(dump, records);
    forall i | 0 <= i < |payload|
      ensures GroupKey(dump, payload[i]) == keys[i]
      ensures exists r <- records :: r.resource == payload[i].resource && r.scope == payload[i].scope
    {
      IndexOfSeen(dump, records, keys[i]);
      assert records[FirstIndex(dump, records, keys[i])] in records;
    }
  }

  /** Whatever the dumped texts are, no two groups have one resource and scope. */
  lemma NoPairTwice<T>(dump: Attributes -> string, records: seq<Record<T>>, payload: seq<Group<T>>)
    requires Grouped(dump, records, payload)
    ensures forall i, j :: 0 <= i < j < |payload| ==> payload[i].resource != payload[j].resource || payload[i].scope != payload[j].scope
  {
    GroupsAreOfRecords(dump, records, payload);
    KeysDistinct(dump, records);
    forall i, j | 0 <= i < j < |payload|
      ensures payload[i].resource != payload[j].resource || payload[i].scope != payload[j].scope
    {
      assert GroupKey(dump, payload[i]) != GroupKey(dump, payload[j]);
    }
  }

  /** The dumped texts tell the resources and scopes of these records apart. */
  ghost predicate ToldApart<T>(dump: Attributes -> string, records: seq<Record<T>>)
  {
    forall a <- records, b <- records :: KeyOf(dump, a) == KeyOf(dump, b) ==> a.resource == b.resource && a.scope == b.scope
  }

  ghost predicate HasGroup<T>(payload: seq<Group<T>>, resource: Attributes, scope: Attributes)
  {
    exists g <- payload :: g.resource == resource && g.scope == scope
  }

  lemma GroupWithKey<T>(dump: Attributes -> string, records: seq<Record<T>>, payload: seq<Group<T>>, r: Record<T>) returns (i: nat)
    requires Grouped(dump, records, payload) && r in records
    ensures i < |payload| && FirstSeen(dump, records)[i] == KeyOf(dump, r) == GroupKey(dump, payload[i])
    ensures exists first <- records :: first.resource == payload[i].resource && first.scope == payload[i].scope
  {
    KeysDistinct(dump, records);
    GroupsAreOfRecords(dump, records, payload);
    i :| 0 <= i < |payload| && FirstSeen(dump, records)[i] == KeyOf(dump, r);
  }

  /** Every resource and scope in the records has its group exactly when the dumped texts
      tell those of these records apart. */
  lemma EveryPairHasItsGroupIff<T>(dump: Attributes -> string, records: seq<Record<T>>, payload: seq<Group<T>>)
    requires Grouped(dump, records, payload)
    ensures (forall r <- records :: HasGroup(payload, r.resource, r.scope)) <==> ToldApart(dump, records)
  {
    hide Grouped, FirstSeen, FirstIndex;
    if ToldApart(dump, records) {
      forall r | r in records
        ensures HasGroup(payload, r.resource, r.scope)
      {
        var i := GroupWithKey(dump, records, payload, r);
        assert payload[i] in payload;
      }
    }
    if forall r <- records :: HasGroup(payload, r.resource, r.scope) {
      PayloadConserves(dump, records, payload);
      forall a, b | a in records && b in records && KeyOf(dump, a) == KeyOf(dump, b)
        ensures a.resource == b.resource && a.scope == b.scope
      {
        var g :| g in payload && g.resource == a.resource && g.scope == a.scope;
        var h :| h in payload && h.resource == b.resource && h.scope == b.scope;
        assert GroupKey(dump, g) == GroupKey(dump, h);
      }
    }
  }

  /** The spans of the records with a resource and scope, in input order. */
  function SpansOfPair<T>(records: seq<Record<T>>, resource: Attributes, scope: Attributes): seq<T>
  {
    if records == [] then []
    else
      var r := records[|records| - 1];
      SpansOfPair(records[..|records| - 1], resource, scope) + (if r.resource == resource && r.scope == scope then [r.span] else [])
  }

  lemma {:induction false} SpansByPair<T>(dump: Attributes -> string, records: seq<Record<T>>, first: Record<T>)
    requires forall r <- records :: KeyOf(dump, r) == KeyOf(dump, first) ==> r.resource == first.resource && r.scope == first.scope
    ensures SpansOf(dump, records, KeyOf(dump, first)) == SpansOfPair(records, first.resource, first.scope)
  {
    if records != [] {
      assert records[|records| - 1] in records;
      SpansByPair(dump, records[..|records| - 1], first);
    }
  }

  /** Where the texts tell the records' resources and scopes apart, the payload groups by
      these: each pair in the records has exactly one group, no other pair has one, and a
      group holds exactly the spans of its pair in input order. */
  lemma OneGroupPerPair<T>(dump: Attributes -> string, records: seq<Record<T>>, payload: seq<Group<T>>, resource: Attributes, scope: Attributes)
    requires Grouped(dump, records, payload) && ToldApart(dump, records)
    ensures (exists r <- records :: r.resource == resource && r.scope == scope) <==> HasGroup(payload, resource, scope)
    ensures forall i, j :: 0 <= i < j < |payload| ==> payload[i].resource != payload[j].resource || payload[i].scope != payload[j].scope
    ensures forall g <- payload :: g.spans == SpansOfPair(records, g.resource, g.scope)
  {
    EveryPairHasItsGroupIff(dump, records, payload);
    GroupsAreOfRecords(dump, records, payload);
    NoPairTwice(dump, records, payload);
    if HasGroup(payload, resource, scope) {
      var i :| 0 <= i < |payload| && payload[i].resource == resource && payload[i].scope == scope;
      var r :| r in records && r.resource == payload[i].resource && r.scope == payload[i].scope;
    }
    forall g | g in payload
      ensures g.spans == SpansOfPair(records, g.resource, g.scope)
    {
      var i :| 0 <= i < |payload| && payload[i] == g;
      var r :| r in records && r.resource == g.resource && r.scope == g.scope;
      SpansByPair(dump, records, r);
    }
  }
}
