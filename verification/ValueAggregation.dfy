/** The read half of `parameter_date_mongodb` (`apiAnalysis/db/save.py`): the request and response
    occurrences of parameters, gathered into one bounded bucket per name. */
module ValueAggregation {
  import opened Distinct
  import opened Order

  /** A stored value: null, a list, or anything else by its JSON text. */
  datatype Value = Null | Plain(text: string) | List(items: seq<Value>)

  /** One document; `name` is empty for a missing or empty parameter, `values` for a missing list. */
  datatype Occurrence = Occurrence(name: string, values: seq<Value>, pathid: int)

  datatype Bucket = Bucket(reqValues: seq<Value>, resValues: seq<Value>, reqPaths: set<int>, resPaths: set<int>)

  function NonNull(items: seq<Value>): seq<Value> {
    if items == [] then []
    else
      var front, last := items[..|items| - 1], items[|items| - 1];
      NonNull(front) + if last.Null? then [] else [last]
  }

  function FlattenOne(value: Value): seq<Value> {
    match value
    case Null => []
    case List(items) => NonNull(items)
    case Plain(_) => [value]
  }

  function Flatten(values: seq<Value>): seq<Value> {
    if values == [] then [] else Flatten(values[..|values| - 1]) + FlattenOne(values[|values| - 1])
  }

  /** All values of a name, in the order of the documents. */
  ghost function Stream(docs: seq<Occurrence>, name: string): seq<Value> {
    if docs == [] then []
    else
      var front, last := docs[..|docs| - 1], docs[|docs| - 1];
      Stream(front, name) + if last.name == name then Flatten(last.values) else []
  }

  ghost function Paths(docs: seq<Occurrence>, name: string): set<int> {
    set doc | doc in docs && doc.name == name :: doc.pathid
  }

  ghost predicate Mentions(docs: seq<Occurrence>, name: string) {
    name != "" && exists doc :: doc in docs && doc.name == name
  }

  /** One level of nesting goes, and nulls with it; order and repetitions stay. */
  lemma {:induction false} FlattenMeaning(values: seq<Value>, x: Value)
    ensures x in Flatten(values)
            <==> x != Null && exists v :: v in values && if v.List? then x in v.items else v == x
  {
    if values != [] {
      var front, last := values[..|values| - 1], values[|values| - 1];
      FlattenMeaning(front, x);
      assert values == front + [last];
      if last.List? {
        NonNullMeaning(last.items, x);
      }
      assert last in values;
    }
  }

  lemma {:induction false} NonNullMeaning(items: seq<Value>, x: Value)
    ensures x in NonNull(items) <==> x != Null && x in items
  {
    if items != [] {
      NonNullMeaning(items[..|items| - 1], x);
      assert items == items[..|items| - 1] + [items[|items| - 1]];
    }
  }

  // ------------------------------------------------------------------ the program

  /** `_flatten_value_list`. */
  method FlattenValueList(values: seq<Value>) returns (flat: seq<Value>)
    ensures flat == Flatten(values)
  {
    flat := [];
    for i := 0 to |values|
      invariant flat == Flatten(values[..i])
    {
      assert values[..i + 1][..i] == values[..i];
      match values[i]
      case Null =>
      case List(items) =>
        var before := flat;
        for k := 0 to |items|
          invariant flat == before + NonNull(items[..k])
        {
          assert items[..k + 1][..k] == items[..k];
          if items[k] != Null {
            flat := flat + [items[k]];
          }
        }
        assert items[..|items|] == items;
      case Plain(_) =>
        flat := flat + [values[i]];
    }
    assert values[..|values|] == values;
  }

  lemma OneMoreDocument(docs: seq<Occurrence>, doc: Occurrence, name: string)
    ensures Stream(docs + [doc], name) == if doc.name == name then Stream(docs, name) + Flatten(doc.values) else Stream(docs, name)
    ensures Paths(docs + [doc], name) == if doc.name == name then Paths(docs, name) + {doc.pathid} else Paths(docs, name)
  {
    hide Flatten;
    assert (docs + [doc])[..|docs|] == docs;
    assert forall d :: d in docs + [doc] <==> d in docs || d == doc;
  }

  lemma {:induction false} UnmentionedIsEmpty<K>(docs: seq<Occurrence>, name: string, key: Value -> K, limit: nat)
    requires name != "" && !Mentions(docs, name)
    ensures Stream(docs, name) == [] && FirstDistinct(Stream(docs, name), key, limit) == [] && Paths(docs, name) == {}
  {
    if docs != [] {
      assert docs[|docs| - 1] in docs;
      assert forall doc | doc in docs[..|docs| - 1] :: doc in docs;
      UnmentionedIsEmpty(docs[..|docs| - 1], name, key, limit);
    }
  }

  lemma KeptIsBounded<K>(s: seq<Value>, key: Value -> K, limit: nat)
    ensures |FirstDistinct(s, key, limit)| <= limit && DistinctKeys(FirstDistinct(s, key, limit), key)
  {
    FirstDistinctMeaning(s, key, limit);
  }

  /** The bucket a name should get. */
  ghost function BucketOf<K>(requests: seq<Occurrence>, responses: seq<Occurrence>, name: string, key: Value -> K, maxReq: nat, maxRes: nat): Bucket {
    Bucket(FirstDistinct(Stream(requests, name), key, maxReq), FirstDistinct(Stream(responses, name), key, maxRes),
           Paths(requests, name), Paths(responses, name))
  }

  /** One bucket for exactly the names some document mentions, each as it should be. */
  ghost predicate Gathered<K>(names: seq<string>, buckets: map<string, Bucket>, requests: seq<Occurrence>, responses: seq<Occurrence>,
                              key: Value -> K, maxReq: nat, maxRes: nat) {
    (forall name :: name in names <==> name in buckets)
    && NoRepeats(names)
    && (forall name :: name in buckets <==> Mentions(requests, name) || Mentions(responses, name))
    && forall name | name in buckets :: buckets[name] == BucketOf(requests, responses, name, key, maxReq, maxRes)
  }

  /** `aggregated.setdefault(name, {...})`. */
  method SetDefault(names: seq<string>, buckets: map<string, Bucket>, name: string) returns (named: seq<string>, all: map<string, Bucket>)
    ensures name in buckets ==> named == names && all == buckets
    ensures name !in buckets ==> named == names + [name] && all == buckets[name := Bucket([], [], {}, {})]
  {
    named, all := names, buckets;
    if name !in all {
      named := named + [name];
      all := all[name := Bucket([], [], {}, {})];
    }
  }

  method AddRequest<K(==)>(names: seq<string>, buckets: map<string, Bucket>, ghost requests: seq<Occurrence>, doc: Occurrence,
                           key: Value -> K, maxReq: nat, ghost maxRes: nat)
    returns (named: seq<string>, all: map<string, Bucket>)
    requires Gathered(names, buckets, requests, [], key, maxReq, maxRes)
    ensures Gathered(named, all, requests + [doc], [], key, maxReq, maxRes)
  {
    hide FirstDistinct, Stream, Paths, Mentions, BucketOf, Gathered;
    ghost var name := doc.name;
    MentionsAfter(requests, doc);
    RequestBuckets(requests, [], doc, key, maxReq, maxRes);
    if doc.name == "" {
      Regather(names, buckets, names, buckets, requests, [], requests + [doc], [], name, key, maxReq, maxRes);
      return names, buckets;
    }
    named, all := SetDefault(names, buckets, doc.name);
    BucketAsGathered(names, buckets, requests, [], name, key, maxReq, maxRes);
    var bucket := all[doc.name];
    var flat := FlattenValueList(doc.values);
    KeptIsBounded(Stream(requests, name), key, maxReq);
    var kept := AppendUnique(bucket.reqValues, flat, key, maxReq);
    FirstDistinctResume(Stream(requests, name), flat, key, maxReq);
    all := all[doc.name := bucket.(reqValues := kept, reqPaths := bucket.reqPaths + {doc.pathid})];
    Regather(names, buckets, named, all, requests, [], requests + [doc], [], name, key, maxReq, maxRes);
  }

  method AddResponse<K(==)>(names: seq<string>, buckets: map<string, Bucket>, ghost requests: seq<Occurrence>, ghost responses: seq<Occurrence>,
                            doc: Occurrence, key: Value -> K, ghost maxReq: nat, maxRes: nat)
    returns (named: seq<string>, all: map<string, Bucket>)
    requires Gathered(names, buckets, requests, responses, key, maxReq, maxRes)
    ensures Gathered(named, all, requests, responses + [doc], key, maxReq, maxRes)
  {
    hide FirstDistinct, Stream, Paths, Mentions, BucketOf, Gathered;
    ghost var name := doc.name;
    MentionsAfter(responses, doc);
    ResponseBuckets(requests, responses, doc, key, maxReq, maxRes);
    if doc.name == "" {
      Regather(names, buckets, names, buckets, requests, responses, requests, responses + [doc], name, key, maxReq, maxRes);
      return names, buckets;
    }
    named, all := SetDefault(names, buckets, doc.name);
    BucketAsGathered(names, buckets, requests, responses, name, key, maxReq, maxRes);
    var bucket := all[doc.name];
    var flat := FlattenValueList(doc.values);
    KeptIsBounded(Stream(responses, name), key, maxRes);
    var kept := AppendUnique(bucket.resValues, flat, key, maxRes);
    FirstDistinctResume(Stream(responses, name), flat, key, maxRes);
    all := all[doc.name := bucket.(resValues := kept, resPaths := bucket.resPaths + {doc.pathid})];
    Regather(names, buckets, named, all, requests, responses, requests, responses + [doc], name, key, maxReq, maxRes);
  }

  /** The bucket found, or the empty one put in its place, is the one the name should have so far. */
  lemma BucketAsGathered<K>(names: seq<string>, buckets: map<string, Bucket>, requests: seq<Occurrence>, responses: seq<Occurrence>,
                            name: string, key: Value -> K, maxReq: nat, maxRes: nat)
    requires name != "" && Gathered(names, buckets, requests, responses, key, maxReq, maxRes)
    ensures (if name in buckets then buckets[name] else Bucket([], [], {}, {}))
            == BucketOf(requests, responses, name, key, maxReq, maxRes)
            == Bucket(FirstDistinct(Stream(requests, name), key, maxReq), FirstDistinct(Stream(responses, name), key, maxRes),
                      Paths(requests, name), Paths(responses, name))
  {
    hide FirstDistinct, Stream, Paths, Mentions;
    EmptyBucket(requests, responses, name, key, maxReq, maxRes);
  }

  /** A document concerns the bucket of its own name only. */
  lemma Regather<K>(names: seq<string>, buckets: map<string, Bucket>, named: seq<string>, all: map<string, Bucket>,
                    requests: seq<Occurrence>, responses: seq<Occurrence>, requests2: seq<Occurrence>, responses2: seq<Occurrence>,
                    name: string, key: Value -> K, maxReq: nat, maxRes: nat)
    requires Gathered(names, buckets, requests, responses, key, maxReq, maxRes)
    requires forall n ::
               Mentions(requests2, n) || Mentions(responses2, n)
               <==> Mentions(requests, n) || Mentions(responses, n) || (n == name && name != "")
    requires forall n | n != name :: BucketOf(requests2, responses2, n, key, maxReq, maxRes) == BucketOf(requests, responses, n, key, maxReq, maxRes)
    requires if name == "" then named == names && all == buckets
             else named == (if name in buckets then names else names + [name])
                  && all == buckets[name := BucketOf(requests2, responses2, name, key, maxReq, maxRes)]
    ensures Gathered(named, all, requests2, responses2, key, maxReq, maxRes)
  {
    hide BucketOf;
    assert !Mentions(requests, "") && !Mentions(responses, "");
    hide Mentions;
  }

  lemma MentionsAfter(docs: seq<Occurrence>, doc: Occurrence)
    ensures forall n :: Mentions(docs + [doc], n) <==> Mentions(docs, n) || (n == doc.name && doc.name != "")
  {
    assert forall d :: d in docs + [doc] <==> d in docs || d == doc;
  }

  lemma RequestBuckets<K>(requests: seq<Occurrence>, responses: seq<Occurrence>, doc: Occurrence, key: Value -> K, maxReq: nat, maxRes: nat)
    ensures forall n | n != doc.name ::
              BucketOf(requests + [doc], responses, n, key, maxReq, maxRes) == BucketOf(requests, responses, n, key, maxReq, maxRes)
    ensures BucketOf(requests + [doc], responses, doc.name, key, maxReq, maxRes)
            == Bucket(FirstDistinct(Stream(requests, doc.name) + Flatten(doc.values), key, maxReq),
                      FirstDistinct(Stream(responses, doc.name), key, maxRes),
                      Paths(requests, doc.name) + {doc.pathid}, Paths(responses, doc.name))
  {
    hide FirstDistinct, Stream, Paths, Flatten;
    forall n {
      OneMoreDocument(requests, doc, n);
    }
  }

  lemma ResponseBuckets<K>(requests: seq<Occurrence>, responses: seq<Occurrence>, doc: Occurrence, key: Value -> K, maxReq: nat, maxRes: nat)
    ensures forall n | n != doc.name ::
              BucketOf(requests, responses + [doc], n, key, maxReq, maxRes) == BucketOf(requests, responses, n, key, maxReq, maxRes)
    ensures BucketOf(requests, responses + [doc], doc.name, key, maxReq, maxRes)
            == Bucket(FirstDistinct(Stream(requests, doc.name), key, maxReq),
                      FirstDistinct(Stream(responses, doc.name) + Flatten(doc.values), key, maxRes),
                      Paths(requests, doc.name), Paths(responses, doc.name) + {doc.pathid})
  {
    hide FirstDistinct, Stream, Paths, Flatten;
    forall n {
      OneMoreDocument(responses, doc, n);
    }
  }

  lemma EmptyBucket<K>(requests: seq<Occurrence>, responses: seq<Occurrence>, name: string, key: Value -> K, maxReq: nat, maxRes: nat)
    requires name != ""
    ensures !Mentions(requests, name) && !Mentions(responses, name) ==>
              BucketOf(requests, responses, name, key, maxReq, maxRes) == Bucket([], [], {}, {})
  {
    if !Mentions(requests, name) && !Mentions(responses, name) {
      UnmentionedIsEmpty(requests, name, key, maxReq);
      UnmentionedIsEmpty(responses, name, key, maxRes);
    }
  }

  /** The two loops. */
  method Aggregate<K(==)>(requests: seq<Occurrence>, responses: seq<Occurrence>, key: Value -> K, maxReq: nat, maxRes: nat)
    returns (names: seq<string>, buckets: map<string, Bucket>)
    ensures Gathered(names, buckets, requests, responses, key, maxReq, maxRes)
  {
    hide BucketOf, Gathered;
    names, buckets := [], map[];
    assert Gathered(names, buckets, requests[..0], [], key, maxReq, maxRes) by { NothingGathered(key, maxReq, maxRes); }
    for i := 0 to |requests|
      invariant Gathered(names, buckets, requests[..i], [], key, maxReq, maxRes)
    {
      names, buckets := AddRequest(names, buckets, requests[..i], requests[i], key, maxReq, maxRes);
      assert requests[..i + 1] == requests[..i] + [requests[i]];
    }
    assert requests[..|requests|] == requests && responses[..0] == [];
    for i := 0 to |responses|
      invariant Gathered(names, buckets, requests, responses[..i], key, maxReq, maxRes)
    {
      names, buckets := AddResponse(names, buckets, requests, responses[..i], responses[i], key, maxReq, maxRes);
      assert responses[..i + 1] == responses[..i] + [responses[i]];
    }
    assert responses[..|responses|] == responses;
  }

  lemma NothingGathered<K>(key: Value -> K, maxReq: nat, maxRes: nat)
    ensures Gathered([], map[], [], [], key, maxReq, maxRes)
  {
  }

  // ------------------------------------------------------------------ main results

  /** What a bucket holds: bounded, free of duplicates, only values some document has for the name, and all
      of them (up to the dedupe key) unless the bound is reached. */
  lemma BucketMeaning<K>(requests: seq<Occurrence>, responses: seq<Occurrence>, name: string, key: Value -> K, maxReq: nat, maxRes: nat)
    ensures var b := BucketOf(requests, responses, name, key, maxReq, maxRes);
            |b.reqValues| <= maxReq && DistinctKeys(b.reqValues, key)
            && (forall x | x in b.reqValues :: FromDocument(requests, name, x))
            && (|b.reqValues| < maxReq ==> forall x | FromDocument(requests, name, x) :: key(x) in Keys(b.reqValues, key))
            && |b.resValues| <= maxRes && DistinctKeys(b.resValues, key)
            && (forall x | x in b.resValues :: FromDocument(responses, name, x))
            && (|b.resValues| < maxRes ==> forall x | FromDocument(responses, name, x) :: key(x) in Keys(b.resValues, key))
  {
    hide FirstDistinct, Stream, FromDocument;
    FirstDistinctMeaning(Stream(requests, name), key, maxReq);
    FirstDistinctMeaning(Stream(responses, name), key, maxRes);
    forall x ensures FromDocument(requests, name, x) <==> x in Stream(requests, name) { StreamMeaning(requests, name, x); }
    forall x ensures FromDocument(responses, name, x) <==> x in Stream(responses, name) { StreamMeaning(responses, name, x); }
  }

  ghost predicate FromDocument(docs: seq<Occurrence>, name: string, x: Value) {
    exists doc :: doc in docs && doc.name == name && x in Flatten(doc.values)
  }

  lemma {:induction false} StreamMeaning(docs: seq<Occurrence>, name: string, x: Value)
    ensures x in Stream(docs, name) <==> FromDocument(docs, name, x)
  {
    hide Flatten;
    if docs != [] {
      var front, last := docs[..|docs| - 1], docs[|docs| - 1];
      StreamMeaning(front, name, x);
      assert docs == front + [last];
      assert last in docs;
    }
  }

  /** Importing the same documents again changes no bucket. */
  lemma SecondReadChangesNothing<K>(docs: seq<Occurrence>, name: string, key: Value -> K, limit: nat)
    ensures FirstDistinct(Stream(docs + docs, name), key, limit) == FirstDistinct(Stream(docs, name), key, limit)
  {
    hide FirstDistinct, Stream;
    StreamAppend(docs, docs, name);
    var s := Stream(docs, name);
    MergeIdempotent([], s, key, limit);
    FirstDistinctResume(s, s, key, limit);
    assert [] + s == s;
  }

  lemma {:induction false} StreamAppend(a: seq<Occurrence>, b: seq<Occurrence>, name: string)
    ensures Stream(a + b, name) == Stream(a, name) + Stream(b, name)
  {
    hide Flatten;
    if b == [] {
      assert a + b == a;
    } else {
      StreamAppend(a, b[..|b| - 1], name);
      assert (a + b)[..|a + b| - 1] == a + b[..|b| - 1];
    }
  }
}
