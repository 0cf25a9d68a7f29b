/**
 * Sorting the records into the four age buckets
 * (scripts/split-conversations.py, lines 49-134). `now` is the run's
 * reference instant in whole seconds since the epoch, UTC.
 */
module Bucketing {
  import opened Wrappers
  import opened Json
  import opened Timestamps

  /** The four buckets; the order of the constructors is the order of the `buckets` dict. */
  datatype Bucket = Last3Months | Months3To6 | Months6To12 | Older

  const SecondsPerDay: int := 86400

  /** The buckets in the order the script creates, and later visits, them. */
  const BucketOrder: seq<Bucket> := [Last3Months, Months3To6, Months6To12, Older]

  /** A bucket's position in BucketOrder. */
  function Rank(b: Bucket): (r: nat)
    ensures r < |BucketOrder| && BucketOrder[r] == b
  {
    match b
    case Last3Months => 0
    case Months3To6 => 1
    case Months6To12 => 2
    case Older => 3
  }

  /** The bucket's key in the `buckets` dict, also the stem of its output file name. */
  function Name(b: Bucket): string {
    match b
    case Last3Months => "last-3-months"
    case Months3To6 => "3-6-months"
    case Months6To12 => "6-12-months"
    case Older => "older"
  }

  /** The ordered `>=` chain against now-90d, now-180d and now-365d; no instant means `older`. */
  function Classify(date: Option<int>, now: int): Bucket {
    match date
    case None => Older
    case Some(t) =>
      if t >= now - 90 * SecondsPerDay then Last3Months
      else if t >= now - 180 * SecondsPerDay then Months3To6
      else if t >= now - 365 * SecondsPerDay then Months6To12
      else Older
  }

  /** The bucket one record is appended to. */
  function BucketOf(conv: Value, now: int, parseDate: string -> Option<int>): Bucket {
    var timestamp := RawTimestamp(conv);
    if !Truthy(timestamp) then Older
    else Classify(ConvDate(timestamp, parseDate), now)
  }

  /** The records of `convs` that land in bucket `b`, in input order. */
  function Members(convs: seq<Value>, b: Bucket, now: int, parseDate: string -> Option<int>): seq<Value> {
    if convs == [] then []
    else
      var last := convs[|convs| - 1];
      Members(convs[..|convs| - 1], b, now, parseDate) + (if BucketOf(last, now, parseDate) == b then [last] else [])
  }

  /** The `buckets` dict: one list per bucket. */
  datatype Buckets = Buckets(last3Months: seq<Value>, months3To6: seq<Value>, months6To12: seq<Value>, older: seq<Value>)
  {
    /** `buckets[name]`. */
    function Get(b: Bucket): seq<Value> {
      match b
      case Last3Months => last3Months
      case Months3To6 => months3To6
      case Months6To12 => months6To12
      case Older => older
    }

    /** `buckets[name].append(conv)`: one list grows by `conv`, the other three are unchanged. */
    function Append(b: Bucket, conv: Value): (r: Buckets)
      ensures r.Get(b) == Get(b) + [conv]
      ensures forall c :: c != b ==> r.Get(c) == Get(c)
    {
      match b
      case Last3Months => this.(last3Months := last3Months + [conv])
      case Months3To6 => this.(months3To6 := months3To6 + [conv])
      case Months6To12 => this.(months6To12 := months6To12 + [conv])
      case Older => this.(older := older + [conv])
    }
  }

  /** The four buckets, as the bucketing loop leaves them: each record appended to its own list. */
  function Bucketed(convs: seq<Value>, now: int, parseDate: string -> Option<int>): Buckets {
    if convs == [] then Buckets([], [], [], [])
    else
      var last := convs[|convs| - 1];
      Bucketed(convs[..|convs| - 1], now, parseDate).Append(BucketOf(last, now, parseDate), last)
  }

  /** Appending a record adds it to the end of its own bucket and leaves the others as they were. */
  lemma MembersSnoc(convs: seq<Value>, conv: Value, b: Bucket, now: int, parseDate: string -> Option<int>)
    ensures Members(convs + [conv], b, now, parseDate)
            == Members(convs, b, now, parseDate) + (if BucketOf(conv, now, parseDate) == b then [conv] else [])
  {
    assert (convs + [conv])[..|convs|] == convs;
  }

  /** One step of the bucketing loop: the record goes to its own bucket. */
  lemma BucketedSnoc(convs: seq<Value>, conv: Value, now: int, parseDate: string -> Option<int>)
    ensures Bucketed(convs + [conv], now, parseDate)
            == Bucketed(convs, now, parseDate).Append(BucketOf(conv, now, parseDate), conv)
  {
    assert (convs + [conv])[..|convs|] == convs;
  }

  /** Each list of the `buckets` dict holds exactly the records that belong to it, in input order. */
  lemma {:induction false} BucketedMembers(convs: seq<Value>, now: int, parseDate: string -> Option<int>)
    ensures forall b :: Bucketed(convs, now, parseDate).Get(b) == Members(convs, b, now, parseDate)
  {
    if convs != [] {
      BucketedMembers(convs[..|convs| - 1], now, parseDate);
    }
  }

  /**
   * Lines 65-134, the body of the bucketing loop for one record: resolve its
   * timestamp, read it as an instant and compare it against the three
   * boundaries in turn.
   */
  method PlaceRecord(conv: Value, now: int, parseDate: string -> Option<int>) returns (target: Bucket)
    ensures target == BucketOf(conv, now, parseDate)
  {
    var threeMonthsAgo := now - 90 * SecondsPerDay;
    var sixMonthsAgo := now - 180 * SecondsPerDay;
    var twelveMonthsAgo := now - 365 * SecondsPerDay;
    var timestamp := ResolveTimestamp(conv);
    if !Truthy(timestamp) {
      target := Older;
    } else {
      var convDate := ConvDate(timestamp, parseDate);
      if convDate.None? {
        target := Older;
      } else if convDate.value >= threeMonthsAgo {
        target := Last3Months;
      } else if convDate.value >= sixMonthsAgo {
        target := Months3To6;
      } else if convDate.value >= twelveMonthsAgo {
        target := Months6To12;
      } else {
        target := Older;
      }
    }
  }

  /**
   * Lines 56-134: one pass over the records, appending each to exactly one
   * of the four lists; the result is Bucketed.
   */
  method SortIntoBuckets(convs: seq<Value>, now: int, parseDate: string -> Option<int>)
    returns (buckets: Buckets)
    ensures buckets == Bucketed(convs, now, parseDate)
  {
    buckets := Buckets([], [], [], []);
    for i := 0 to |convs|
      invariant buckets == Bucketed(convs[..i], now, parseDate)
    {
      var conv := convs[i];
      var target := PlaceRecord(conv, now, parseDate);
      BucketedSnoc(convs[..i], conv, now, parseDate);
      assert convs[..i + 1] == convs[..i] + [conv];
      buckets := buckets.Append(target, conv);
    }
    assert convs[..|convs|] == convs;
  }

  /**
   * The bucket boundaries, each inclusive on its recent edge: every instant
   * falls in exactly the bucket whose interval holds it.
   */
  lemma ClassifyBoundaries(t: int, now: int)
    ensures Classify(Some(t), now) == Last3Months <==> t >= now - 90 * SecondsPerDay
    ensures Classify(Some(t), now) == Months3To6 <==> now - 180 * SecondsPerDay <= t < now - 90 * SecondsPerDay
    ensures Classify(Some(t), now) == Months6To12 <==> now - 365 * SecondsPerDay <= t < now - 180 * SecondsPerDay
    ensures Classify(Some(t), now) == Older <==> t < now - 365 * SecondsPerDay
  {
  }

  /** An older instant never lands in a more recent bucket than a newer one. */
  lemma ClassifyMonotone(t1: int, t2: int, now: int)
    requires t1 <= t2
    ensures Rank(Classify(Some(t1), now)) >= Rank(Classify(Some(t2), now))
  {
  }

  /**
   * A record whose timestamp is missing or falsy, or whose value gives no
   * instant (a string no parser accepts, a list, a dict), is put in
   * `older` and in no other bucket.
   */
  lemma UnresolvedIsOlder(conv: Value, now: int, parseDate: string -> Option<int>)
    requires !Truthy(RawTimestamp(conv)) || ConvDate(RawTimestamp(conv), parseDate).None?
    ensures BucketOf(conv, now, parseDate) == Older
  {
  }

  /** Every member of a bucket belongs there. */
  lemma {:induction false} MembersBelong(convs: seq<Value>, b: Bucket, now: int, parseDate: string -> Option<int>)
    ensures forall x :: x in Members(convs, b, now, parseDate) ==> x in convs && BucketOf(x, now, parseDate) == b
  {
    if convs != [] {
      MembersBelong(convs[..|convs| - 1], b, now, parseDate);
    }
  }

  /** Appending one record after a concatenation. */
  lemma SnocAfterConcat(xs: seq<Value>, ys: seq<Value>, x: Value)
    ensures xs + (ys + [x]) == (xs + ys) + [x]
  {
  }

  /** A bucket keeps input order: the members of a concatenation are the members of each part, in turn. */
  lemma {:induction false} MembersConcat(xs: seq<Value>, ys: seq<Value>, b: Bucket, now: int, parseDate: string -> Option<int>)
    ensures Members(xs + ys, b, now, parseDate) == Members(xs, b, now, parseDate) + Members(ys, b, now, parseDate)
  {
    if ys == [] {
      assert xs + ys == xs;
    } else {
      var init, last := ys[..|ys| - 1], ys[|ys| - 1];
      var tail := if BucketOf(last, now, parseDate) == b then [last] else [];
      calc {
        Members(xs + ys, b, now, parseDate);
        { SnocAfterConcat(xs, init, last); assert ys == init + [last]; }
        Members((xs + init) + [last], b, now, parseDate);
        { MembersSnoc(xs + init, last, b, now, parseDate); }
        Members(xs + init, b, now, parseDate) + tail;
        { MembersConcat(xs, init, b, now, parseDate); }
        Members(xs, b, now, parseDate) + Members(init, b, now, parseDate) + tail;
        { MembersSnoc(init, last, b, now, parseDate); assert ys == init + [last]; }
        Members(xs, b, now, parseDate) + Members(ys, b, now, parseDate);
      }
    }
  }

  /** All records held by the four lists, counted with multiplicity. */
  ghost function Union(buckets: Buckets): multiset<Value> {
    multiset(buckets.last3Months) + multiset(buckets.months3To6) + multiset(buckets.months6To12) + multiset(buckets.older)
  }

  /** Appending a record to any one list adds exactly that record to the union. */
  lemma UnionAppend(buckets: Buckets, b: Bucket, conv: Value)
    ensures Union(buckets.Append(b, conv)) == Union(buckets) + multiset{conv}
  {
    match b
    case Last3Months =>
    case Months3To6 =>
    case Months6To12 =>
    case Older =>
  }

  /**
   * The buckets partition the input: their multisets add up to the input's,
   * so every record is in exactly one bucket.
   */
  lemma {:induction false} BucketsPartition(convs: seq<Value>, now: int, parseDate: string -> Option<int>)
    ensures Union(Bucketed(convs, now, parseDate)) == multiset(convs)
  {
    if convs != [] {
      var init, last := convs[..|convs| - 1], convs[|convs| - 1];
      BucketsPartition(init, now, parseDate);
      assert convs == init + [last];
      UnionAppend(Bucketed(init, now, parseDate), BucketOf(last, now, parseDate), last);
      assert multiset(convs) == multiset(init) + multiset{last};
    }
  }

  /** The four lists' lengths add up to the number of records. */
  lemma BucketSizes(convs: seq<Value>, now: int, parseDate: string -> Option<int>)
    ensures var buckets := Bucketed(convs, now, parseDate);
            |buckets.last3Months| + |buckets.months3To6| + |buckets.months6To12| + |buckets.older| == |convs|
  {
    BucketsPartition(convs, now, parseDate);
    assert |multiset(convs)| == |convs|;
  }


  /** Every record is among the members of its own bucket. */
  lemma {:induction false} InOwnBucket(convs: seq<Value>, i: nat, now: int, parseDate: string -> Option<int>)
    requires i < |convs|
    ensures convs[i] in Members(convs, BucketOf(convs[i], now, parseDate), now, parseDate)
  {
    var init := convs[..|convs| - 1];
    if i < |init| {
      InOwnBucket(init, i, now, parseDate);
      assert convs[i] == init[i];
    }
  }

  /** Every record is in its own bucket and in no other. */
  lemma InExactlyOneBucket(convs: seq<Value>, i: nat, now: int, parseDate: string -> Option<int>)
    requires i < |convs|
    ensures convs[i] in Members(convs, BucketOf(convs[i], now, parseDate), now, parseDate)
    ensures forall b :: b != BucketOf(convs[i], now, parseDate) ==> convs[i] !in Members(convs, b, now, parseDate)
  {
    InOwnBucket(convs, i, now, parseDate);
    forall b | b != BucketOf(convs[i], now, parseDate) ensures convs[i] !in Members(convs, b, now, parseDate) {
      MembersBelong(convs, b, now, parseDate);
    }
  }

}
