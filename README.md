# split-conversations, modelled in Dafny

This project models the core of `scripts/split-conversations.py`. The script
reads an exported conversations file (a ChatGPT or Claude export) and writes
up to four JSON files, `last-3-months.json`, `3-6-months.json`,
`6-12-months.json` and `older.json`. Each conversation record goes into one of
them by its age, reduced to its messages, a raw timestamp and a short title.

The model covers the four deterministic pieces of `split_conversations_by_time`:

- **Loading** (`loader.dfy`). The parsed document is normalised into a list
  of records:
  - a `conversations` key wins over an `items` key;
  - `items` wins over the first list-valued entry;
  - a dict with none of these gives `[]`;
  - a list is taken as it is;
  - anything else is refused.
- **Timestamps** (`timestamps.dfy`):
  - the first present field among seven top-level names;
  - the metadata fallback among five names;
  - reading a number as epoch seconds, or as milliseconds above 1e12.
- **Bucketing** (`bucketing.dfy`). The loop appends every record to exactly
  one of four lists, by an ordered `>=` chain against now−90d, now−180d and
  now−365d.
- **Minimisation** (`minimize.dfy`). `minimize_conv` takes the first of three
  extraction strategies (`mapping`, `messages`, `items`) whose key is
  present. It cuts message content to 5000 characters and the title to 100,
  and it chooses the output timestamp by a truthiness chain.
- **Emission** (`emission.dfy`):
  - the buckets are visited in dict order;
  - empty buckets are skipped;
  - every other bucket becomes one file holding its records minimized, in
    order;
  - a whole run is the composition of the steps above.

`json.dfy` holds the JSON value type and the Python semantics the script
relies on:
- truthiness;
- `in` and `.get` on dicts;
- iteration;
- `str()`;
- slicing;
- `strip()`;
- `' '.join`.

A dict is an ordered sequence of key/value pairs, because the script
depends on key order (the list-valued fallback, the `mapping` nodes). The
state the script changes step by step is modelled with methods:
- the field searches;
- the bucketing loop over the `buckets` dict, kept as a `Buckets` value
  that the loop reassigns;
- the message append loops;
- the emission loop.

Each of these methods is proved equal to a pure function, and the properties
are lemmas about those functions.

Time is whole seconds since the Unix epoch, UTC. `now` is a parameter. The
library date parsers for strings (`fromisoformat`, then three `strptime`
formats, then normalisation to UTC) are a parameter `parseDate: string ->
Option<int>`.

## Model

| member | source | states |
|---|---|---|
| Json.LookupFirst | scripts/split-conversations.py:68-69 | `key in d` holds exactly when some entry has the key, and `d[key]` is the value of the first such entry |
| Json.GetOrFirst | scripts/split-conversations.py:147-149 | `d.get(key, default)` is the value of the first entry with the key, and the default when no entry has it or the value is not a dict |
| Json.DigitsValue | scripts/split-conversations.py:168 | `str()` of a natural number is a digit string that reads back, in base 10, as that number |
| Json.DecimalValueOf | scripts/split-conversations.py:168 | `str()` of an integer reads back as the integer, with a leading minus sign exactly for negative numbers |
| Json.PyStrOfTruthy | scripts/split-conversations.py:164-168 | `str()` of a truthy value is never empty |
| Json.Truncate | scripts/split-conversations.py:156 | `s[:n]` is a prefix of `s` of length min(len(s), n) |
| Loader.FirstListIsFirst | scripts/split-conversations.py:39-40 | the fallback is a list: the first list-valued entry in key order, with every earlier entry not a list, or `[]` when there is none |
| Loader.SelectionOrder | scripts/split-conversations.py:31-45 | first match wins: `conversations` over `items` over the list-valued fallback; a list is kept unchanged; any other document is an error |
| Loader.FallbackNeverFails | scripts/split-conversations.py:37-40 | a dict with neither key always loads, giving no records when no entry is a list |
| Timestamps.FirstPresentIsFirst | scripts/split-conversations.py:67-70 | the search finds a value exactly when some field is present, and then it is the value of the earliest present field, falsy or not |
| Timestamps.FindField | scripts/split-conversations.py:67-70 | the `for ... break` loop returns the first present field's value |
| Timestamps.ResolveTimestamp | scripts/split-conversations.py:66-78 | the two searches leave the raw timestamp: the top-level value, replaced by the metadata value when it is falsy |
| Timestamps.TopLevelWins | scripts/split-conversations.py:66-73 | a truthy value in the first present top-level field is the timestamp, and `metadata` is not consulted |
| Timestamps.MetadataOnlyAsFallback | scripts/split-conversations.py:73-78 | the metadata value replaces the top-level one only when that is falsy or absent and `metadata` is present; a truthy timestamp comes from some present field |
| Timestamps.MetadataReplaces | scripts/split-conversations.py:73-78 | a falsy or absent top-level value IS replaced when `metadata` has one of the five fields, by the first of them present |
| Timestamps.MillisecondsCompareExactly | scripts/split-conversations.py:89-90 | numbers above 1e12 are divided by 1000, and against whole-second boundaries the quotient compares exactly as the true quotient does |
| Timestamps.SecondsTakenAsIs | scripts/split-conversations.py:91-92 | numbers up to 1e12 are taken as seconds unchanged |
| Bucketing.Rank | scripts/split-conversations.py:56-61 | each bucket has its position in the `buckets` dict's order |
| Bucketing.Buckets.Append | scripts/split-conversations.py:127-134 | `buckets[name].append(conv)` grows that list by `conv` and leaves the other three unchanged |
| Bucketing.MembersSnoc | scripts/split-conversations.py:64-134 | one more record extends its own bucket at the end and no other |
| Bucketing.BucketedSnoc | scripts/split-conversations.py:64-134 | one loop iteration appends the record to its own bucket |
| Bucketing.BucketedMembers | scripts/split-conversations.py:56-134 | after the loop each list holds exactly the records that belong to that bucket, in input order |
| Bucketing.PlaceRecord | scripts/split-conversations.py:65-134 | the loop body picks the bucket given by the resolved timestamp and the `>=` chain |
| Bucketing.SortIntoBuckets | scripts/split-conversations.py:56-134 | the bucketing loop leaves the four lists equal to the bucketing function |
| Bucketing.ClassifyBoundaries | scripts/split-conversations.py:127-134 | each bucket holds exactly the instants of its interval, inclusive on the recent edge |
| Bucketing.ClassifyMonotone | scripts/split-conversations.py:127-134 | an older instant never lands in a more recent bucket |
| Bucketing.UnresolvedIsOlder | scripts/split-conversations.py:80-117 | a missing or falsy timestamp, or one that gives no instant, puts the record in `older` |
| Bucketing.MembersBelong | scripts/split-conversations.py:64-134 | every member of a bucket is an input record that belongs there |
| Bucketing.MembersConcat | scripts/split-conversations.py:64-134 | buckets preserve input order: the members of a concatenation are each part's members, in turn |
| Bucketing.UnionAppend | scripts/split-conversations.py:127-134 | one append adds exactly that record to the four lists together |
| Bucketing.BucketsPartition | scripts/split-conversations.py:64-134 | the four lists together hold exactly the input's records, with multiplicity |
| Bucketing.BucketSizes | scripts/split-conversations.py:64-134 | the four list lengths add up to the number of records |
| Bucketing.InOwnBucket | scripts/split-conversations.py:64-134 | every record is among its own bucket's members |
| Bucketing.InExactlyOneBucket | scripts/split-conversations.py:64-134 | every record is in its own bucket and in no other |
| Minimize.CollectFrom | scripts/split-conversations.py:146-178 | every message an append loop emits comes from some element of the collection it visits |
| Minimize.CollectConcat | scripts/split-conversations.py:146-178 | the append loop over a concatenation emits each part's messages, in turn |
| Minimize.CollectOne | scripts/split-conversations.py:146-178 | one element emits exactly its own message, or nothing |
| Minimize.CollectKeepsAll | scripts/split-conversations.py:146-178 | nothing is dropped and order is kept: for two elements that give messages, both are emitted, the earlier first |
| Minimize.ListedMessagesInOrder | scripts/split-conversations.py:160-169 | in the `messages` strategy every element with truthy content-or-text is emitted, in source order |
| Minimize.CollectEach | scripts/split-conversations.py:163-169 | the append loop emits, in order, the message of each element that gives one |
| Minimize.MinimizeConv | scripts/split-conversations.py:137-184 | `minimize_conv` returns the strategy's messages, the output timestamp and the cut title |
| Minimize.Title | scripts/split-conversations.py:183 | the title is exactly the first min(len(str(title)), 100) characters of `str(title)`, empty when there is no title |
| Minimize.ContentIsBoundedPrefix | scripts/split-conversations.py:152-177 | every emitted content has at most 5000 characters and is a prefix of the text of some source element |
| Minimize.StrategyByFirstKey | scripts/split-conversations.py:143-178 | one strategy is chosen by first key present: a non-dict `mapping` gives no messages, and `messages`/`items` are not consulted |
| Minimize.ListedMessageRules | scripts/split-conversations.py:163-169 | a `messages` element gives a message exactly when `content or text` is truthy; role falls back from `role` to `author` to "unknown"; content is non-empty `str()` cut to 5000 |
| Minimize.ItemMessageRules | scripts/split-conversations.py:173-178 | an `items` element gives a message exactly when it is a dict with `content`; role defaults to "unknown"; content is `str()` cut to 5000 |
| Minimize.NodeMessageRules | scripts/split-conversations.py:146-157 | a `mapping` node gives a message exactly when its message, the message's content and its parts are truthy and the space-joined truthy parts are not blank; content is that text cut to 5000; role is the author's `role`, else "unknown" |
| Minimize.OutputTimestampRules | scripts/split-conversations.py:182 | the output timestamp is the first truthy of `create_time`, `created_at`, `timestamp` in that order, else the value of `timestamp` (`None` when absent); it is truthy exactly when one of the three is |
| Emission.FileNamesDistinct | scripts/split-conversations.py:197 | the four buckets' file names `<bucket>.json` differ, so no file overwrites another |
| Emission.MinimizeAllPointwise | scripts/split-conversations.py:194 | the comprehension has one element per record, the i-th being `minimize_conv` of the i-th |
| Emission.MinimizeEach | scripts/split-conversations.py:194 | the comprehension, computed one call at a time, equals the minimized list |
| Emission.EmitBuckets | scripts/split-conversations.py:188-197 | the emission loop writes exactly the files of the emission function |
| Emission.EmitSources | scripts/split-conversations.py:188-194 | every file comes from a visited, non-empty bucket and holds that bucket minimized |
| Emission.EmitCovers | scripts/split-conversations.py:188-194 | every non-empty visited bucket gets a file |
| Emission.EmitOrdered | scripts/split-conversations.py:188-194 | files come out in the order their buckets are visited |
| Emission.EmissionOrderAndSkip | scripts/split-conversations.py:188-194 | files follow dict order; a bucket gets a file exactly when non-empty, holding `minimize_conv` of each record in order |
| Emission.EmitAll | scripts/split-conversations.py:188-191 | visiting the four buckets writes each one's file, if any, in turn |
| Emission.TotalOfEmit | scripts/split-conversations.py:188-194 | the files hold as many records as the visited buckets |
| Emission.SizeSumOfAll | scripts/split-conversations.py:188-194 | visiting the four buckets counts each bucket's records once |
| Emission.SplitConversationsByTime | scripts/split-conversations.py:20-199 | a run loads, normalises, buckets, then minimizes and writes, as the run function says |
| Emission.FailuresWriteNothing | scripts/split-conversations.py:20-45 | a failed load or an unsupported document writes no file; a document whose records load is never an error (which files it then writes, one per non-empty bucket, is `EmissionOrderAndSkip`) |
| Emission.EveryRecordWrittenOnce | scripts/split-conversations.py:64-194 | the files written hold exactly as many records as the input has |
| Emission.SingleBucketEmitted | scripts/split-conversations.py:188-194 | when one bucket alone holds records, it is the only file written |
| Emission.SingleRecordBucketed | scripts/split-conversations.py:64-134 | a one-record input fills only that record's bucket |
| Emission.RecentRecordMessages | scripts/split-conversations.py:160-169 | a record with one `messages` element gives that one message |
| Emission.RecentRecordMinimized | scripts/split-conversations.py:137-184 | that record minimizes to its message, its `create_time` and its title |
| Emission.RecentConversationScenario | scripts/split-conversations.py:5-199 | a record ten days old is written alone to last-3-months with its message, timestamp and title |
| Emission.HelloWorldJoined | scripts/split-conversations.py:152-153 | the parts "hello" and "world" join to the non-blank "hello world" |
| Emission.HelloMessageFields | scripts/split-conversations.py:147-149 | `.get` finds the author and the content of a two-key message |
| Emission.TwoPartNode | scripts/split-conversations.py:146-157 | a node with those parts from a user gives the message "hello world" |
| Emission.OldNodesCollected | scripts/split-conversations.py:146-157 | of a node with a message and a node with `message: null`, only the first gives a message |
| Emission.OldRecordMessages | scripts/split-conversations.py:143-157 | a record with a `mapping` takes its messages from the mapping's nodes |
| Emission.OldRecordMinimized | scripts/split-conversations.py:137-184 | that record minimizes to "hello world", its `create_time` and an empty title |
| Emission.OldConversationScenario | scripts/split-conversations.py:5-199 | a record 400 days old is written alone to older, with its content the space-joined parts |

## Left out

- File I/O: `mkdir`, `open`, `json.load` and `json.dump`. `FileNotFoundError` and `JSONDecodeError` are abstract load errors; a written file is an `OutputFile` value.
- Console output and the file-size report, which uses float division into MB.
- `datetime.now`: `now` is a parameter, in whole seconds. Its sub-second part is dropped, so an instant within one second of a boundary may compare differently.
- The library date parsers and timezone conversion: they are the parameter `parseDate`. ISO 8601 and calendar arithmetic are not reimplemented.
- Float timestamps and `fromtimestamp` precision: JSON numbers are integers here. Milliseconds use integer division, which compares against whole-second boundaries exactly as true division does.
- `datetime` range errors: `fromtimestamp` raises on out-of-range numbers and the script crashes. The model gives every number an instant.
- Non-dict values where the script uses `in`, `.get` or `[]`:
  - a record, `metadata`, message, node or author that is not a dict has no keys in the model;
  - so does a `mapping` message's `content` (`.get('parts', [])`) and an element of a `messages` list (`.get`): the model gives no message for either;
  - the script instead raises, or tests substring or element membership.
- Iterating a value that is not a list, string or dict visits nothing here; the script raises.
- A selected `conversations` value that is not a list gives the error `NotAList`. The script instead raises, or iterates the value's characters or keys.
- `str()` of containers and strings inside them uses single quotes without escaping. `repr` escaping and float formatting are not modelled.
- Duplicate keys in a JSON object: `json.load` keeps the last value for a repeated key, at the position of its first occurrence; the model's lookup reads the first value. Iteration differs too: `data.values()` and `mapping.items()` visit a repeated key once, while the fallback search and the `mapping` node loop here visit every entry. Both differ only on documents with repeated keys.
- The `__main__` driver with its fixed paths.
- Where the script's intent and its code differ, the model follows the code:
  - the output `timestamp` is the last operand of `a or b or c`, which may be a falsy value such as `0` or `""` rather than `None`;
  - a `True` timestamp counts as the number 1, because `bool` is an `int` in Python.
