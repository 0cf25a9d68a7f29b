/**
 * Writing the buckets and the whole run of `split_conversations_by_time`
 * for one input (scripts/split-conversations.py, lines 5-199). Writing a
 * file is modelled as producing an OutputFile value.
 */
module Emission {
  import opened Wrappers
  import opened Json
  import opened Timestamps
  import opened Loader
  import opened Bucketing
  import opened Minimize

  /** `<output_dir>/<bucket>.json`, holding the bucket's minimized records in order. */
  datatype OutputFile = OutputFile(bucket: Bucket, conversations: seq<Minimal>)

  /** The file a bucket is written to. */
  function FileName(b: Bucket): string {
    Name(b) + ".json"
  }

  /** `[f(x) for x in xs]`. */
  function MapSeq<T, U>(xs: seq<T>, f: T -> U): (r: seq<U>)
    ensures |r| == |xs|
  {
    if xs == [] then [] else MapSeq(xs[..|xs| - 1], f) + [f(xs[|xs| - 1])]
  }

  /** A comprehension keeps order: its i-th element is `f` of the i-th input. */
  lemma {:induction false} MapSeqPointwise<T, U>(xs: seq<T>, f: T -> U)
    ensures forall i :: 0 <= i < |xs| ==> MapSeq(xs, f)[i] == f(xs[i])
  {
    if xs != [] {
      var init := xs[..|xs| - 1];
      MapSeqPointwise(init, f);
      forall i | 0 <= i < |xs| ensures MapSeq(xs, f)[i] == f(xs[i]) {
        if i < |init| {
          assert xs[i] == init[i];
        }
      }
    }
  }

  /** The four buckets are written to four different files, so no file overwrites another. */
  lemma FileNamesDistinct(b1: Bucket, b2: Bucket)
    ensures FileName(b1) == FileName(b2) <==> b1 == b2
  {
    if b1 != b2 {
      assert FileName(b1)[..|FileName(b1)| - 5] == Name(b1);
      assert FileName(b2)[..|FileName(b2)| - 5] == Name(b2);
    }
  }

  /** `[minimize_conv(conv) for conv in convs]`. */
  function MinimizeAll(convs: seq<Value>): seq<Minimal> {
    MapSeq(convs, Minimized)
  }

  /** The i-th minimized record is `minimize_conv` of the i-th record. */
  lemma MinimizeAllPointwise(convs: seq<Value>)
    ensures |MinimizeAll(convs)| == |convs|
    ensures forall i :: 0 <= i < |convs| ==> MinimizeAll(convs)[i] == Minimized(convs[i])
  {
    MapSeqPointwise(convs, Minimized);
  }

  /** Line 194: the list comprehension, one `minimize_conv` call per record. */
  method MinimizeEach(convs: seq<Value>) returns (minimal: seq<Minimal>)
    ensures minimal == MinimizeAll(convs)
  {
    minimal := [];
    for j := 0 to |convs|
      invariant minimal == MapSeq(convs[..j], Minimized)
    {
      assert convs[..j + 1][..j] == convs[..j];
      var m := MinimizeConv(convs[j]);
      minimal := minimal + [m];
    }
    assert convs[..|convs|] == convs;
  }

  /** The files written when the buckets are visited in `order`: an empty bucket writes nothing. */
  function Emit(order: seq<Bucket>, buckets: Buckets): seq<OutputFile>
  {
    if order == [] then []
    else Emit(order[..|order| - 1], buckets) + Written(order[|order| - 1], buckets)
  }

  /** The file bucket `b` contributes: none when it is empty, else one holding its records minimized. */
  function Written(b: Bucket, buckets: Buckets): seq<OutputFile> {
    if buckets.Get(b) == [] then [] else [OutputFile(b, MinimizeAll(buckets.Get(b)))]
  }

  /** Lines 188-194: the buckets in dict order, skipping the empty ones, one file each for the rest. */
  method EmitBuckets(buckets: Buckets) returns (files: seq<OutputFile>)
    ensures files == Emit(BucketOrder, buckets)
  {
    files := [];
    for k := 0 to |BucketOrder|
      invariant files == Emit(BucketOrder[..k], buckets)
    {
      assert BucketOrder[..k + 1][..k] == BucketOrder[..k];
      var b := BucketOrder[k];
      var convs := buckets.Get(b);
      if convs == [] {
        continue;
      }
      var minimal := MinimizeEach(convs);
      files := files + [OutputFile(b, minimal)];
    }
    assert BucketOrder[..|BucketOrder|] == BucketOrder;
  }

  /** Each file comes from a bucket visited, which is non-empty, and holds that bucket minimized. */
  lemma {:induction false} EmitSources(order: seq<Bucket>, buckets: Buckets)
    ensures forall f :: f in Emit(order, buckets) ==>
              f.bucket in order && buckets.Get(f.bucket) != [] && f.conversations == MinimizeAll(buckets.Get(f.bucket))
  {
    if order != [] {
      EmitSources(order[..|order| - 1], buckets);
    }
  }

  /** Every non-empty bucket visited gets a file. */
  lemma {:induction false} EmitCovers(order: seq<Bucket>, buckets: Buckets)
    ensures forall b :: b in order && buckets.Get(b) != [] ==> exists f :: f in Emit(order, buckets) && f.bucket == b
  {
    if order != [] {
      var init := order[..|order| - 1];
      EmitCovers(init, buckets);
      forall b | b in order && buckets.Get(b) != [] ensures exists f :: f in Emit(order, buckets) && f.bucket == b {
        if b == order[|order| - 1] {
          assert OutputFile(b, MinimizeAll(buckets.Get(b))) in Emit(order, buckets);
        } else {
          assert b in init;
        }
      }
    }
  }

  /** Files come out in the order their buckets are visited. */
  lemma {:induction false} EmitOrdered(order: seq<Bucket>, buckets: Buckets)
    requires forall i, j :: 0 <= i < j < |order| ==> Rank(order[i]) < Rank(order[j])
    ensures forall i, j :: 0 <= i < j < |Emit(order, buckets)| ==>
              Rank(Emit(order, buckets)[i].bucket) < Rank(Emit(order, buckets)[j].bucket)
  {
    if order != [] {
      var init := order[..|order| - 1];
      var last := order[|order| - 1];
      EmitOrdered(init, buckets);
      EmitSources(init, buckets);
      var prev := Emit(init, buckets);
      forall f | f in prev ensures Rank(f.bucket) < Rank(last) {
        var m :| 0 <= m < |init| && init[m] == f.bucket;
      }
    }
  }

  /**
   * The files come out in the fixed order last-3-months, 3-6-months,
   * 6-12-months, older; a bucket gets a file exactly when it is non-empty,
   * and that file holds `minimize_conv` of each of its records, in order.
   */
  lemma EmissionOrderAndSkip(buckets: Buckets)
    ensures forall i, j :: 0 <= i < j < |Emit(BucketOrder, buckets)| ==>
              Rank(Emit(BucketOrder, buckets)[i].bucket) < Rank(Emit(BucketOrder, buckets)[j].bucket)
    ensures forall f :: f in Emit(BucketOrder, buckets) ==>
              && buckets.Get(f.bucket) != []
              && |f.conversations| == |buckets.Get(f.bucket)|
              && forall k :: 0 <= k < |f.conversations| ==> f.conversations[k] == Minimized(buckets.Get(f.bucket)[k])
    ensures forall b :: buckets.Get(b) != [] <==> exists f :: f in Emit(BucketOrder, buckets) && f.bucket == b
  {
    EmitSources(BucketOrder, buckets);
    EmitCovers(BucketOrder, buckets);
    EmitOrdered(BucketOrder, buckets);
    MinimizeAllPointwise(buckets.last3Months);
    MinimizeAllPointwise(buckets.months3To6);
    MinimizeAllPointwise(buckets.months6To12);
    MinimizeAllPointwise(buckets.older);
    forall b ensures b in BucketOrder {
      assert BucketOrder[Rank(b)] == b;
    }
  }

  /** The number of records written across the files. */
  function Total(files: seq<OutputFile>): nat {
    if files == [] then 0 else Total(files[..|files| - 1]) + |files[|files| - 1].conversations|
  }

  /** The files together hold as many records as the buckets visited. */
  lemma {:induction false} TotalOfEmit(order: seq<Bucket>, buckets: Buckets)
    ensures Total(Emit(order, buckets)) == SizeSum(order, buckets)
  {
    if order != [] {
      var init := order[..|order| - 1];
      var b := order[|order| - 1];
      TotalOfEmit(init, buckets);
      var files := Emit(order, buckets);
      if buckets.Get(b) != [] {
        assert files == Emit(init, buckets) + [OutputFile(b, MinimizeAll(buckets.Get(b)))];
        assert files[..|files| - 1] == Emit(init, buckets);
      } else {
        assert files == Emit(init, buckets);
      }
    }
  }

  /** The number of records in the buckets of `order`, empty ones included. */
  function SizeSum(order: seq<Bucket>, buckets: Buckets): nat
  {
    if order == [] then 0 else SizeSum(order[..|order| - 1], buckets) + |buckets.Get(order[|order| - 1])|
  }

  /**
   * One run of `split_conversations_by_time` for one input: the outcome of
   * loading the file, the run's `now` and the string date parsers in, the
   * files written (or why none are) out.
   */
  function Split(loaded: Result<Value, LoadError>, now: int, parseDate: string -> Option<int>)
    : Result<seq<OutputFile>, LoadError>
  {
    match loaded
    case Err(e) => Err(e)
    case Ok(doc) =>
      match Conversations(doc)
      case Err(e) => Err(e)
      case Ok(convs) => Ok(Emit(BucketOrder, Bucketed(convs, now, parseDate)))
  }

  /** Lines 20-199: load, normalise, bucket, then minimize and write. */
  method SplitConversationsByTime(loaded: Result<Value, LoadError>, now: int, parseDate: string -> Option<int>)
    returns (result: Result<seq<OutputFile>, LoadError>)
    ensures result == Split(loaded, now, parseDate)
  {
    if loaded.Err? {
      return Err(loaded.error);
    }
    var conversations := Conversations(loaded.value);
    if conversations.Err? {
      return Err(conversations.error);
    }
    var buckets := SortIntoBuckets(conversations.value, now, parseDate);
    var files := EmitBuckets(buckets);
    return Ok(files);
  }

  /**
   * A failed load or an unsupported document writes no file; any document
   * whose records load is not an error.
   */
  lemma FailuresWriteNothing(loaded: Result<Value, LoadError>, now: int, parseDate: string -> Option<int>)
    ensures loaded.Err? ==> Split(loaded, now, parseDate) == Err(loaded.error)
    ensures loaded.Ok? && !loaded.value.Obj? && !loaded.value.Arr? ==>
              Split(loaded, now, parseDate) == Err(UnexpectedStructure)
    ensures loaded.Ok? && Conversations(loaded.value).Ok? ==> Split(loaded, now, parseDate).Ok?
  {
  }

  /** Every loaded record is written exactly once: the files hold as many records as the input has. */
  lemma EveryRecordWrittenOnce(doc: Value, now: int, parseDate: string -> Option<int>)
    requires Conversations(doc).Ok?
    ensures Split(Ok(doc), now, parseDate).Ok?
    ensures Total(Split(Ok(doc), now, parseDate).value) == |Conversations(doc).value|
  {
    var convs := Conversations(doc).value;
    var buckets := Bucketed(convs, now, parseDate);
    assert Split(Ok(doc), now, parseDate) == Ok(Emit(BucketOrder, buckets));
    TotalOfEmit(BucketOrder, buckets);
    SizeSumOfAll(buckets);
    BucketSizes(convs, now, parseDate);
  }

  /** Visiting the four buckets in order counts each bucket's records once. */
  lemma SizeSumOfAll(buckets: Buckets)
    ensures SizeSum(BucketOrder, buckets)
            == |buckets.last3Months| + |buckets.months3To6| + |buckets.months6To12| + |buckets.older|
  {
    var s3: seq<Bucket> := [Last3Months, Months3To6, Months6To12];
    var s2: seq<Bucket> := [Last3Months, Months3To6];
    var s1: seq<Bucket> := [Last3Months];
    assert BucketOrder[..3] == s3 && s3[..2] == s2 && s2[..1] == s1 && s1[..0] == [];
    assert SizeSum(s1, buckets) == |buckets.last3Months|;
    assert SizeSum(s2, buckets) == SizeSum(s1, buckets) + |buckets.months3To6|;
    assert SizeSum(s3, buckets) == SizeSum(s2, buckets) + |buckets.months6To12|;
    assert SizeSum(BucketOrder, buckets) == SizeSum(s3, buckets) + |buckets.older|;
  }

  /** The record of the recent-conversation scenario, created at `created`. */
  function RecentRecord(created: int): Value {
    Obj([("create_time", Int(created)),
         ("messages", Arr([Obj([("role", Str("user")), ("content", Str("hi"))])])),
         ("title", Str("Hello"))])
  }

  /** The record's `messages` list gives its one message. */
  lemma RecentRecordMessages(created: int)
    ensures Messages(RecentRecord(created)) == [Message(Str("user"), "hi")]
  {
    var msg := Obj([("role", Str("user")), ("content", Str("hi"))]);
    var conv := RecentRecord(created);
    LookupFirst(conv.fields, "mapping");
    LookupFirst(conv.fields, "messages");
    LookupFirst(msg.fields, "role");
    LookupFirst(msg.fields, "content");
    assert ListedMessage(msg) == Some(Message(Str("user"), "hi"));
    assert [msg][..0] == [];
    assert GetOr(conv, "messages", Null) == Arr([msg]);
  }

  /** The record minimizes to its one message, its raw timestamp and its title. */
  lemma RecentRecordMinimized(created: int)
    requires created != 0
    ensures Minimized(RecentRecord(created)) == Minimal([Message(Str("user"), "hi")], Int(created), "Hello")
  {
    var conv := RecentRecord(created);
    RecentRecordMessages(created);
    LookupFirst(conv.fields, "create_time");
    LookupFirst(conv.fields, "title");
    assert conv.fields[2] == ("title", Str("Hello"));
    assert GetOr(conv, "title", Str("")) == Str("Hello");
    assert GetOr(conv, "create_time", Null) == Int(created);
  }

  /** Visiting the four buckets in order writes each one's file, if any, in turn. */
  lemma EmitAll(buckets: Buckets)
    ensures Emit(BucketOrder, buckets)
            == Written(Last3Months, buckets) + Written(Months3To6, buckets)
               + Written(Months6To12, buckets) + Written(Older, buckets)
  {
    var s3: seq<Bucket> := [Last3Months, Months3To6, Months6To12];
    var s2: seq<Bucket> := [Last3Months, Months3To6];
    var s1: seq<Bucket> := [Last3Months];
    assert BucketOrder[..3] == s3 && s3[..2] == s2 && s2[..1] == s1 && s1[..0] == [];
    assert Emit(s1, buckets) == Written(Last3Months, buckets);
    assert Emit(s2, buckets) == Written(Last3Months, buckets) + Written(Months3To6, buckets);
  }

  /** When a single bucket holds records, it alone is written. */
  lemma SingleBucketEmitted(buckets: Buckets, b: Bucket)
    requires buckets.Get(b) != []
    requires forall c :: c != b ==> buckets.Get(c) == []
    ensures Emit(BucketOrder, buckets) == [OutputFile(b, MinimizeAll(buckets.Get(b)))]
  {
    EmitAll(buckets);
    var file := OutputFile(b, MinimizeAll(buckets.Get(b)));
    assert forall c :: Written(c, buckets) == if c == b then [file] else [];
  }

  /** A one-record input fills only the record's own bucket. */
  lemma SingleRecordBucketed(conv: Value, now: int, parseDate: string -> Option<int>)
    ensures Bucketed([conv], now, parseDate).Get(BucketOf(conv, now, parseDate)) == [conv]
    ensures forall c :: c != BucketOf(conv, now, parseDate) ==> Bucketed([conv], now, parseDate).Get(c) == []
  {
    assert [conv][..0] == [];
  }

  /**
   * A record created ten days before `now` with one user message lands in
   * last-3-months, which is the only file written, with its message, its
   * raw timestamp and its title.
   */
  lemma RecentConversationScenario(now: int, parseDate: string -> Option<int>)
    requires 10 * SecondsPerDay < now <= MillisecondThreshold
    ensures Split(Ok(Obj([("conversations", Arr([RecentRecord(now - 10 * SecondsPerDay)]))])), now, parseDate)
            == Ok([OutputFile(Last3Months, [Minimal([Message(Str("user"), "hi")], Int(now - 10 * SecondsPerDay), "Hello")])])
  {
    var created := now - 10 * SecondsPerDay;
    var conv := RecentRecord(created);
    var doc := Obj([("conversations", Arr([conv]))]);
    LookupFirst(doc.fields, "conversations");
    assert Conversations(doc) == Ok([conv]);
    LookupFirst(conv.fields, "create_time");
    assert RawTimestamp(conv) == Int(created);
    assert BucketOf(conv, now, parseDate) == Last3Months;
    RecentRecordMinimized(created);
    SingleRecordBucketed(conv, now, parseDate);
    SingleBucketEmitted(Bucketed([conv], now, parseDate), Last3Months);
    assert MinimizeAll([conv]) == [Minimized(conv)];
  }

  /**
   * The record of the old-conversation scenario: a `mapping` with one node
   * whose message has two text parts and one node without a message.
   */
  function OldRecord(created: int): Value {
    Obj([("create_time", Int(created)), ("mapping", Obj(OldNodes()))])
  }

  /** The parts "hello" and "world" join to the non-blank text "hello world". */
  lemma HelloWorldJoined()
    ensures JoinedParts(Arr([Str("hello"), Str("world")])) == "hello world"
    ensures !IsBlank("hello world")
  {
    var items := [Str("hello"), Str("world")];
    assert items[..1] == [Str("hello")];
    assert [Str("hello")][..0] == [];
    assert TruthyTexts(items) == ["hello", "world"];
    assert ["hello", "world"][..1] == ["hello"];
    assert !IsSpace("hello world"[0]);
  }

  /** The message of the old record's first node: from a user, with the parts "hello" and "world". */
  function HelloMessage(): Value {
    Obj([("author", Obj([("role", Str("user"))])),
         ("content", Obj([("parts", Arr([Str("hello"), Str("world")]))]))])
  }

  /** The message's author is a user and its content holds the two parts. */
  lemma HelloMessageFields()
    ensures GetOr(HelloMessage(), "author", Obj([])) == Obj([("role", Str("user"))])
    ensures GetOr(HelloMessage(), "content", Null) == Obj([("parts", Arr([Str("hello"), Str("world")]))])
  {
    var message := HelloMessage();
    var content := Obj([("parts", Arr([Str("hello"), Str("world")]))]);
    assert message.fields[1..] == [("content", content)];
    assert Lookup(message.fields[1..], "content") == Some(content);
  }

  /** A node holding that message gives the message "hello world". */
  lemma TwoPartNode()
    ensures NodeMessage(Obj([("message", HelloMessage())])) == Some(Message(Str("user"), "hello world"))
  {
    var parts := Arr([Str("hello"), Str("world")]);
    var node := Obj([("message", HelloMessage())]);
    assert GetOr(node, "message", Null) == HelloMessage();
    HelloMessageFields();
    assert NodeParts(node) == parts;
    HelloWorldJoined();
    assert Truncate("hello world", ContentLimit) == "hello world";
  }

  /** The `mapping` of the old record. */
  function OldNodes(): seq<(string, Value)> {
    [("n1", Obj([("message", HelloMessage())])), ("n2", Obj([("message", Null)]))]
  }

  /** Of the two nodes, the one with a message gives "hello world" and the other nothing. */
  lemma OldNodesCollected()
    ensures Collect(OldNodes(), MappingNode) == [Message(Str("user"), "hello world")]
  {
    var nodes := OldNodes();
    TwoPartNode();
    assert MappingNode(nodes[0]) == Some(Message(Str("user"), "hello world"));
    assert MappingNode(nodes[1]) == None;
    assert nodes[..1] == [nodes[0]] && nodes[..1][..0] == [];
  }

  /** The record's messages come from its `mapping`. */
  lemma OldRecordMessages(created: int)
    ensures Messages(OldRecord(created)) == [Message(Str("user"), "hello world")]
  {
    var conv := OldRecord(created);
    var nodes := OldNodes();
    assert conv == Obj([("create_time", Int(created)), ("mapping", Obj(nodes))]);
    OldNodesCollected();
    assert conv.fields[1..] == [("mapping", Obj(nodes))];
    assert Lookup(conv.fields[1..], "mapping") == Some(Obj(nodes));
    assert GetOr(conv, "mapping", Null) == Obj(nodes);
  }

  /** The record minimizes to the space-joined parts of its one message node; the title is empty. */
  lemma OldRecordMinimized(created: int)
    requires created != 0
    ensures Minimized(OldRecord(created)) == Minimal([Message(Str("user"), "hello world")], Int(created), "")
  {
    var conv := OldRecord(created);
    OldRecordMessages(created);
    LookupFirst(conv.fields, "create_time");
    LookupFirst(conv.fields, "title");
    assert GetOr(conv, "create_time", Null) == Int(created);
  }

  /**
   * A record created 400 days before `now`, with a `mapping` of message
   * nodes, lands in `older`, the only file written, with its message
   * content the space-joined parts.
   */
  lemma OldConversationScenario(now: int, parseDate: string -> Option<int>)
    requires 400 * SecondsPerDay < now <= MillisecondThreshold
    ensures Split(Ok(Arr([OldRecord(now - 400 * SecondsPerDay)])), now, parseDate)
            == Ok([OutputFile(Older, [Minimal([Message(Str("user"), "hello world")], Int(now - 400 * SecondsPerDay), "")])])
  {
    var created := now - 400 * SecondsPerDay;
    var conv := OldRecord(created);
    var expected := Minimal([Message(Str("user"), "hello world")], Int(created), "");
    assert Conversations(Arr([conv])) == Ok([conv]);
    LookupFirst(conv.fields, "create_time");
    assert RawTimestamp(conv) == Int(created);
    assert BucketOf(conv, now, parseDate) == Older;
    OldRecordMinimized(created);

    SingleRecordBucketed(conv, now, parseDate);
    SingleBucketEmitted(Bucketed([conv], now, parseDate), Older);
    assert MinimizeAll([conv]) == [Minimized(conv)];
  }
}
