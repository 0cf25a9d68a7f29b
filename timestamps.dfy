/**
 * Finding a conversation's timestamp and reading it as an instant
 * (scripts/split-conversations.py, lines 65-124). Instants are whole
 * seconds since the Unix epoch, UTC.
 */
module Timestamps {
  import opened Wrappers
  import opened Json

  /** The record's own fields that may hold its timestamp, in the order they are tried. */
  const TopLevelFields: seq<string> :=
    ["create_time", "created_at", "timestamp", "created", "date", "updated_at", "update_time"]

  /** The fields tried inside `metadata`, in order. */
  const MetadataFields: seq<string> := ["create_time", "created_at", "timestamp", "created", "date"]

  /** Numbers above this are epoch milliseconds (`timestamp > 1e12`), the rest epoch seconds. */
  const MillisecondThreshold: int := 1_000_000_000_000

  /** The value of the first of `fields` that `v` has, whatever that value is. */
  function FirstPresent(v: Value, fields: seq<string>): Option<Value> {
    if fields == [] then None
    else if Has(v, fields[0]) then Get(v, fields[0])
    else FirstPresent(v, fields[1..])
  }

  /**
   * The first field present decides, even when its value is falsy: the
   * search finds something exactly when some field is present, and then it
   * is the value of the earliest one.
   */
  lemma {:induction false} FirstPresentIsFirst(v: Value, fields: seq<string>)
    ensures FirstPresent(v, fields).Some? <==> exists i :: 0 <= i < |fields| && Has(v, fields[i])
    ensures forall i :: 0 <= i < |fields| && Has(v, fields[i]) && (forall j :: 0 <= j < i ==> !Has(v, fields[j]))
                        ==> FirstPresent(v, fields) == Get(v, fields[i])
  {
    if fields != [] && !Has(v, fields[0]) {
      var rest := fields[1..];
      FirstPresentIsFirst(v, rest);
      if FirstPresent(v, fields).Some? {
        var i :| 0 <= i < |rest| && Has(v, rest[i]);
        assert fields[i + 1] == rest[i];
      }
      forall i | 0 <= i < |fields| && Has(v, fields[i]) && (forall j :: 0 <= j < i ==> !Has(v, fields[j]))
        ensures FirstPresent(v, fields) == Get(v, fields[i])
      {
        assert rest[i - 1] == fields[i];
        forall j | 0 <= j < i - 1 ensures !Has(v, rest[j]) {
          assert rest[j] == fields[j + 1];
        }
      }
    }
  }

  /**
   * `for field in fields: if field in v: timestamp = v[field]; break`:
   * the loop stops at the first field present.
   */
  method FindField(v: Value, fields: seq<string>) returns (found: Option<Value>)
    ensures found == FirstPresent(v, fields)
  {
    found := None;
    var i := 0;
    while i < |fields|
      invariant 0 <= i <= |fields|
      invariant FirstPresent(v, fields) == FirstPresent(v, fields[i..])
    {
      assert fields[i..][1..] == fields[i + 1..];
      if Has(v, fields[i]) {
        found := Get(v, fields[i]);
        break;
      }
      i := i + 1;
    }
  }

  /**
   * The raw timestamp value the bucketing loop ends up with: the first
   * top-level field present; when that is missing or falsy and the record
   * has `metadata`, the first metadata field present replaces it.
   */
  function RawTimestamp(conv: Value): Value {
    var top := match FirstPresent(conv, TopLevelFields) case Some(x) => x case None => Null;
    if !Truthy(top) && Has(conv, "metadata") then
      match FirstPresent(GetOr(conv, "metadata", Null), MetadataFields)
      case Some(x) => x
      case None => top
    else top
  }

  /** Lines 66-78, step by step: the two field searches of the bucketing loop. */
  method ResolveTimestamp(conv: Value) returns (timestamp: Value)
    ensures timestamp == RawTimestamp(conv)
  {
    timestamp := Null;
    var top := FindField(conv, TopLevelFields);
    if top.Some? {
      timestamp := top.value;
    }
    if !Truthy(timestamp) && Has(conv, "metadata") {
      var metadata := GetOr(conv, "metadata", Null);
      var nested := FindField(metadata, MetadataFields);
      if nested.Some? {
        timestamp := nested.value;
      }
    }
  }

  /**
   * A truthy value in the first top-level field present is the timestamp;
   * `metadata` is not consulted then.
   */
  lemma TopLevelWins(conv: Value, i: nat)
    requires i < |TopLevelFields| && Has(conv, TopLevelFields[i])
    requires forall j :: 0 <= j < i ==> !Has(conv, TopLevelFields[j])
    requires Truthy(GetOr(conv, TopLevelFields[i], Null))
    ensures RawTimestamp(conv) == GetOr(conv, TopLevelFields[i], Null)
  {
    FirstPresentIsFirst(conv, TopLevelFields);
  }

  /**
   * The metadata search replaces the top-level value only when that value is
   * falsy or absent and `metadata` is present; it then takes the first
   * metadata field present. If neither search finds a truthy value the
   * timestamp is falsy.
   */
  lemma MetadataOnlyAsFallback(conv: Value)
    ensures var top := FirstPresent(conv, TopLevelFields);
            RawTimestamp(conv) != (if top.Some? then top.value else Null) ==>
              && !(top.Some? && Truthy(top.value))
              && Has(conv, "metadata")
              && FirstPresent(GetOr(conv, "metadata", Null), MetadataFields) == Some(RawTimestamp(conv))
    ensures Truthy(RawTimestamp(conv)) ==>
              (exists i :: 0 <= i < |TopLevelFields| && Has(conv, TopLevelFields[i]))
              || (exists i :: 0 <= i < |MetadataFields| && Has(GetOr(conv, "metadata", Null), MetadataFields[i]))
  {
    FirstPresentIsFirst(conv, TopLevelFields);
    FirstPresentIsFirst(GetOr(conv, "metadata", Null), MetadataFields);
  }

  /**
   * A falsy or absent top-level value is replaced when `metadata` is present
   * and has one of the five fields: the timestamp is then the value of the
   * first of them present.
   */
  lemma MetadataReplaces(conv: Value, i: nat)
    requires var top := FirstPresent(conv, TopLevelFields); !(top.Some? && Truthy(top.value))
    requires Has(conv, "metadata")
    requires i < |MetadataFields| && Has(GetOr(conv, "metadata", Null), MetadataFields[i])
    requires forall j :: 0 <= j < i ==> !Has(GetOr(conv, "metadata", Null), MetadataFields[j])
    ensures RawTimestamp(conv) == GetOr(GetOr(conv, "metadata", Null), MetadataFields[i], Null)
  {
    FirstPresentIsFirst(GetOr(conv, "metadata", Null), MetadataFields);
  }

  /**
   * Lines 86-124: a truthy raw timestamp as an instant in seconds. Numbers
   * above 1e12 are milliseconds and are divided by 1000; `True` is the
   * number 1; strings go through the library parsers, given here as
   * `parseDate`; any other value gives no instant.
   */
  function ConvDate(timestamp: Value, parseDate: string -> Option<int>): Option<int> {
    match timestamp
    case Int(n) => Some(if n > MillisecondThreshold then n / 1000 else n)
    case Bool(b) => Some(if b then 1 else 0)
    case Str(s) => parseDate(s)
    case _ => None
  }

  /**
   * Reading milliseconds with whole-second division loses nothing the
   * bucketing can see: against any whole-second boundary the quotient
   * compares exactly as Python's true division `n / 1000` does.
   */
  lemma MillisecondsCompareExactly(n: int, boundary: int)
    requires n > MillisecondThreshold
    ensures ConvDate(Int(n), s => None) == Some(n / 1000)
    ensures n / 1000 >= boundary <==> n >= 1000 * boundary
  {
    if n / 1000 >= boundary {
      assert n >= 1000 * (n / 1000);
    } else {
      assert n / 1000 <= boundary - 1;
      assert n < 1000 * (n / 1000) + 1000;
    }
  }

  /** Numbers up to 1e12, inclusive, are seconds and are taken as they are. */
  lemma SecondsTakenAsIs(n: int, parseDate: string -> Option<int>)
    requires n <= MillisecondThreshold
    ensures ConvDate(Int(n), parseDate) == Some(n)
  {
  }
}
