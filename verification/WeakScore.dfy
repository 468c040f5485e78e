/** `score_weak_relation` of `apiAnalysis/rule/legacy_scoring.py`, and the value digests of
    `framework.py` it is computed from in `builtin_rules.py`. */
module WeakScore {
  import opened Order
  import opened Text

  const BLACKLIST := {"page", "size", "offset", "sort", "order", "lang", "locale", "timestamp", "nonce", "token", "traceid"}

  function CountPoints(overlap: nat): real {
    if overlap * 10 < 50 then (overlap * 10) as real else 50.0
  }

  function Ratio(overlap: nat, reqCount: nat, resCount: nat): real {
    overlap as real / Max(Max(reqCount, resCount), 1) as real
  }

  function RatioPoints(ratio: real): real {
    if ratio >= 0.6 then 25.0 else if ratio >= 0.3 then 12.0 else 0.0
  }

  predicate Informative(leaf: string) {
    leaf != "" && Lower(leaf) !in BLACKLIST
  }

  function Score(leaf: string, overlap: nat, reqCount: nat, resCount: nat, fallback: bool): real {
    var sum := CountPoints(overlap) + RatioPoints(Ratio(overlap, reqCount, resCount))
               + (if Informative(leaf) then 15.0 else 0.0) + if fallback then 8.0 else 0.0;
    if sum < 100.0 then sum else 100.0
  }

  function Codes(leaf: string, overlap: nat, reqCount: nat, resCount: nat, fallback: bool): seq<string> {
    var ratio := Ratio(overlap, reqCount, resCount);
    (if overlap > 0 then ["OVERLAP_COUNT"] else [])
    + (if ratio >= 0.6 then ["OVERLAP_RATIO_HIGH"] else if ratio >= 0.3 then ["OVERLAP_RATIO_MID"] else [])
    + (if Informative(leaf) then ["LEAF_NOT_BLACKLIST"] else [])
    + (if fallback then ["NAME_FALLBACK"] else [])
  }

  method ScoreWeakRelation(leaf: string, overlap: nat, reqCount: nat, resCount: nat, fallback: bool)
    returns (score: real, codes: seq<string>)
    ensures score == Score(leaf, overlap, reqCount, resCount, fallback)
    ensures codes == Codes(leaf, overlap, reqCount, resCount, fallback)
  {
    score, codes := 0.0, [];
    if overlap > 0 {
      score := score + if overlap * 10 < 50 then (overlap * 10) as real else 50.0;
      codes := codes + ["OVERLAP_COUNT"];
    }
    var ratio := overlap as real / Max(Max(reqCount, resCount), 1) as real;
    assert ratio == Ratio(overlap, reqCount, resCount);
    hide Ratio, Max, Informative;
    if ratio >= 0.6 {
      score := score + 25.0;
      codes := codes + ["OVERLAP_RATIO_HIGH"];
    } else if ratio >= 0.3 {
      score := score + 12.0;
      codes := codes + ["OVERLAP_RATIO_MID"];
    }
    if Informative(leaf) {
      score := score + 15.0;
      codes := codes + ["LEAF_NOT_BLACKLIST"];
    }
    if fallback {
      score := score + 8.0;
      codes := codes + ["NAME_FALLBACK"];
    }
    if score > 100.0 {
      score := 100.0;
    }
  }

  /** Scores are whole numbers between 0 and 98: the cap at 100 never acts and rounding to two digits
      changes nothing. */
  lemma ScoreIsWholeAndBounded(leaf: string, overlap: nat, reqCount: nat, resCount: nat, fallback: bool)
    ensures var s := Score(leaf, overlap, reqCount, resCount, fallback);
            0.0 <= s <= 98.0 && s == s.Floor as real
  {
    var whole: int := (if overlap * 10 < 50 then overlap * 10 else 50)
                      + (if Ratio(overlap, reqCount, resCount) >= 0.6 then 25
                         else if Ratio(overlap, reqCount, resCount) >= 0.3 then 12 else 0)
                      + (if Informative(leaf) then 15 else 0) + if fallback then 8 else 0;
    assert Score(leaf, overlap, reqCount, resCount, fallback) == whole as real;
  }

  lemma RatioMonotone(a: nat, b: nat, reqCount: nat, resCount: nat)
    requires a <= b
    ensures Ratio(a, reqCount, resCount) <= Ratio(b, reqCount, resCount)
  {
    var m := Max(Max(reqCount, resCount), 1) as real;
    QuotientMonotone(a as real, b as real, m);
  }

  lemma QuotientMonotone(x: real, y: real, m: real)
    requires x <= y && m > 0.0
    ensures x / m <= y / m
  {
    assert y / m - x / m == (y - x) / m;
  }

  /** More shared values never lower the score. */
  lemma ScoreMonotone(leaf: string, a: nat, b: nat, reqCount: nat, resCount: nat, fallback: bool)
    requires a <= b
    ensures Score(leaf, a, reqCount, resCount, fallback) <= Score(leaf, b, reqCount, resCount, fallback)
  {
    hide Ratio;
    RatioMonotone(a, b, reqCount, resCount);
  }

  // ------------------------------------------------------------------ digests

  /** What `summarize_values` keeps of a list of values; the values are their canonical JSON texts. */
  datatype Observation = Observation(digests: seq<string>, uniqueCount: nat, observedCount: nat, bounded: bool)

  function UniqueValues(values: seq<string>): seq<string> {
    StrLeOrder();
    SortedSet((set v | v in values), StrLe)
  }

  function FirstOf(s: seq<string>, n: nat): seq<string> {
    if |s| <= n then s else s[..n]
  }

  /** `summarize_values`; the caller's bound must lie between 1 and 100. */
  function Summarize(hash: string -> string, values: seq<string>, maxDigests: nat): Observation {
    var unique := UniqueValues(values);
    var kept := FirstOf(unique, maxDigests);
    Observation(seq(|kept|, i requires 0 <= i < |kept| => hash(kept[i])), |unique|, |values|, |unique| > maxDigests)
  }

  ghost predicate Injective(hash: string -> string) {
    forall x, y :: hash(x) == hash(y) ==> x == y
  }

  function ToSet(s: seq<string>): set<string> { set x | x in s }

  /** `len(_intersection(context))`. */
  function Overlap(a: Observation, b: Observation): nat {
    |ToSet(a.digests) * ToSet(b.digests)|
  }

  /** The overlap of the full value sets. */
  function TrueOverlap(a: seq<string>, b: seq<string>): nat {
    |ToSet(a) * ToSet(b)|
  }

  lemma {:induction false} ImageSize(hash: string -> string, s: set<string>)
    requires Injective(hash)
    ensures |set x | x in s :: hash(x)| == |s|
  {
    if s != {} {
      var y :| y in s;
      ImageSize(hash, s - {y});
      assert (set x | x in s :: hash(x)) == (set x | x in s - {y} :: hash(x)) + {hash(y)};
    }
  }

  lemma DigestSet(hash: string -> string, values: seq<string>, maxDigests: nat)
    ensures ToSet(Summarize(hash, values, maxDigests).digests)
            == set x | x in ToSet(FirstOf(UniqueValues(values), maxDigests)) :: hash(x)
  {
    var kept := FirstOf(UniqueValues(values), maxDigests);
    var digests := Summarize(hash, values, maxDigests).digests;
    forall x | x in kept ensures hash(x) in digests {
      var i :| 0 <= i < |kept| && kept[i] == x;
      assert digests[i] == hash(x);
    }
  }

  lemma KeptIsSubset(values: seq<string>, maxDigests: nat)
    ensures ToSet(FirstOf(UniqueValues(values), maxDigests)) <= ToSet(values)
    ensures |UniqueValues(values)| <= maxDigests ==> ToSet(FirstOf(UniqueValues(values), maxDigests)) == ToSet(values)
  {
  }

  /** The digest overlap counts exactly the shared values kept on both sides. */
  lemma OverlapCountsKept(hash: string -> string, a: seq<string>, b: seq<string>, m: nat, n: nat)
    requires Injective(hash)
    ensures Overlap(Summarize(hash, a, m), Summarize(hash, b, n))
            == |ToSet(FirstOf(UniqueValues(a), m)) * ToSet(FirstOf(UniqueValues(b), n))|
  {
    DigestSet(hash, a, m);
    DigestSet(hash, b, n);
    var x, y := ToSet(FirstOf(UniqueValues(a), m)), ToSet(FirstOf(UniqueValues(b), n));
    ImageSize(hash, x * y);
    assert (set v | v in x :: hash(v)) * (set v | v in y :: hash(v)) == set v | v in x * y :: hash(v);
  }

  /** Truncation only loses overlap, and it loses none exactly when every shared value was kept on
      both sides, in particular when neither side is marked `bounded`. */
  lemma TruncationOnlyLosesOverlap(hash: string -> string, a: seq<string>, b: seq<string>, m: nat, n: nat)
    requires Injective(hash)
    ensures var x, y := Summarize(hash, a, m), Summarize(hash, b, n);
            && Overlap(x, y) <= TrueOverlap(a, b)
            && (Overlap(x, y) == TrueOverlap(a, b) <==>
                  ToSet(a) * ToSet(b) <= ToSet(FirstOf(UniqueValues(a), m)) * ToSet(FirstOf(UniqueValues(b), n)))
            && (!x.bounded && !y.bounded ==> Overlap(x, y) == TrueOverlap(a, b))
  {
    hide UniqueValues, FirstOf;
    OverlapCountsKept(hash, a, b, m, n);
    KeptIsSubset(a, m);
    KeptIsSubset(b, n);
    var kept := ToSet(FirstOf(UniqueValues(a), m)) * ToSet(FirstOf(UniqueValues(b), n));
    SubsetSize(kept, ToSet(a) * ToSet(b));
  }

  lemma SubsetSize<T>(s: set<T>, t: set<T>)
    requires s <= t
    ensures |s| <= |t| && (|s| == |t| <==> t <= s)
  {
    assert t == s + (t - s);
    assert |t| == |s| + |t - s|;
  }

  /** `_legacy_weak_score`, on digests and on the full value sets. */
  function LegacyScore(leaf: string, request: Observation, response: Observation, fallback: bool): real {
    Score(leaf, Overlap(response, request), request.uniqueCount, response.uniqueCount, fallback) / 100.0
  }

  function FullScore(leaf: string, request: seq<string>, response: seq<string>, fallback: bool): real {
    Score(leaf, TrueOverlap(response, request), |ToSet(request)|, |ToSet(response)|, fallback) / 100.0
  }

  /** Truncation only under-scores: the score the engine sees never exceeds the score of the full
      value sets, it is the same when neither side is bounded, and it is always a legal feature value. */
  lemma TruncationOnlyUnderScores(hash: string -> string, leaf: string, request: seq<string>, response: seq<string>,
                                  m: nat, n: nat, fallback: bool)
    requires Injective(hash)
    ensures var req, res := Summarize(hash, request, m), Summarize(hash, response, n);
            && LegacyScore(leaf, req, res, fallback) <= FullScore(leaf, request, response, fallback)
            && (!req.bounded && !res.bounded ==> LegacyScore(leaf, req, res, fallback) == FullScore(leaf, request, response, fallback))
            && 0.0 <= LegacyScore(leaf, req, res, fallback) <= 1.0
  {
    hide Score, Overlap, TrueOverlap;
    var req, res := Summarize(hash, request, m), Summarize(hash, response, n);
    TruncationOnlyLosesOverlap(hash, response, request, n, m);
    UniqueCounts(hash, request, m);
    UniqueCounts(hash, response, n);
    ScoreMonotone(leaf, Overlap(res, req), TrueOverlap(response, request), req.uniqueCount, res.uniqueCount, fallback);
    ScoreIsWholeAndBounded(leaf, Overlap(res, req), req.uniqueCount, res.uniqueCount, fallback);
  }

  lemma UniqueCounts(hash: string -> string, values: seq<string>, n: nat)
    ensures Summarize(hash, values, n).uniqueCount == |ToSet(values)|
  {
    assert (set v | v in values) == ToSet(values);
  }
}
