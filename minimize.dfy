/**
 * `minimize_conv`: reducing a record to its messages, a raw timestamp and a
 * short title (scripts/split-conversations.py, lines 137-184).
 */
module Minimize {
  import opened Wrappers
  import opened Json

  /** Message content is cut to this many characters (`content[:5000]`). */
  const ContentLimit: nat := 5000
  /** Titles are cut to this many characters (`[:100]`). */
  const TitleLimit: nat := 100

  /** `{'role': ..., 'content': ...}`. The role is whatever JSON value the source held. */
  datatype Message = Message(role: Value, content: string)

  /** `{'messages': ..., 'timestamp': ..., 'title': ...}`. */
  datatype Minimal = Minimal(messages: seq<Message>, timestamp: Value, title: string)

  /** The messages that `f` keeps from `xs`, in order (an append loop over `xs`). */
  function Collect<T>(xs: seq<T>, f: T -> Option<Message>): seq<Message> {
    if xs == [] then []
    else
      var last := xs[|xs| - 1];
      Collect(xs[..|xs| - 1], f) + (match f(last) case Some(m) => [m] case None => [])
  }

  /** Every collected message is what `f` made of some element of `xs`. */
  lemma {:induction false} CollectFrom<T>(xs: seq<T>, f: T -> Option<Message>)
    ensures forall m :: m in Collect(xs, f) ==> exists i :: 0 <= i < |xs| && f(xs[i]) == Some(m)
  {
    if xs != [] {
      var init := xs[..|xs| - 1];
      CollectFrom(init, f);
      forall m | m in Collect(xs, f) ensures exists i :: 0 <= i < |xs| && f(xs[i]) == Some(m) {
        if m in Collect(init, f) {
          var i :| 0 <= i < |init| && f(init[i]) == Some(m);
          assert xs[i] == init[i];
        } else {
          assert f(xs[|xs| - 1]) == Some(m);
        }
      }
    }
  }
  /** The loop over a concatenation emits the messages of each part, in turn. */
  lemma {:induction false} CollectConcat<T>(xs: seq<T>, ys: seq<T>, f: T -> Option<Message>)
    ensures Collect(xs + ys, f) == Collect(xs, f) + Collect(ys, f)
  {
    if ys == [] {
      assert xs + ys == xs;
    } else {
      var init := ys[..|ys| - 1];
      CollectConcat(xs, init, f);
      assert (xs + ys)[..|xs + ys| - 1] == xs + init;
    }
  }

  /** One element gives its message, if any. */
  lemma CollectOne<T>(x: T, f: T -> Option<Message>)
    ensures Collect([x], f) == match f(x) case Some(m) => [m] case None => []
  {
    assert [x][..0] == [];
  }

  /**
   * Nothing is dropped and order is kept: the message of every element that
   * gives one is emitted, and for two such elements the earlier one's message
   * comes first.
   */
  lemma CollectKeepsAll<T>(xs: seq<T>, f: T -> Option<Message>, i: nat, j: nat)
    requires i < j < |xs| && f(xs[i]).Some? && f(xs[j]).Some?
    ensures exists k, l :: 0 <= k < l < |Collect(xs, f)|
                           && Collect(xs, f)[k] == f(xs[i]).value && Collect(xs, f)[l] == f(xs[j]).value
  {
    var a, b, c := xs[..i], xs[i + 1..j], xs[j + 1..];
    assert xs == a + [xs[i]] + b + [xs[j]] + c;
    CollectConcat(a + [xs[i]] + b + [xs[j]], c, f);
    CollectConcat(a + [xs[i]] + b, [xs[j]], f);
    CollectConcat(a + [xs[i]], b, f);
    CollectConcat(a, [xs[i]], f);
    CollectOne(xs[i], f);
    CollectOne(xs[j], f);
    var k := |Collect(a, f)|;
    var l := k + 1 + |Collect(b, f)|;
    assert Collect(xs, f)[k] == f(xs[i]).value;
    assert Collect(xs, f)[l] == f(xs[j]).value;
  }


  /** `[str(part) for part in parts if part]`. */
  function TruthyTexts(parts: seq<Value>): seq<string> {
    if parts == [] then []
    else
      var last := parts[|parts| - 1];
      TruthyTexts(parts[..|parts| - 1]) + (if Truthy(last) then [PyStr(last)] else [])
  }

  /** `' '.join(str(part) for part in parts if part)`. */
  function JoinedParts(parts: Value): string {
    Join(" ", TruthyTexts(Iterate(parts)))
  }

  /** `node.get('message')['content'].get('parts', [])`, as far as each level is a dict. */
  function NodeParts(node: Value): Value {
    GetOr(GetOr(GetOr(node, "message", Null), "content", Null), "parts", Arr([]))
  }

  /**
   * One node of a `mapping` (lines 147-157): it gives a message when it has
   * a truthy `message` with a truthy `content` whose `parts` are truthy and
   * join to a non-blank text.
   */
  function NodeMessage(node: Value): Option<Message> {
    var message := GetOr(node, "message", Null);
    if !Truthy(message) || !Truthy(GetOr(message, "content", Null)) then None
    else
      var parts := NodeParts(node);
      if !Truthy(parts) then None
      else
        var joined := JoinedParts(parts);
        if IsBlank(joined) then None
        else Some(Message(GetOr(GetOr(message, "author", Obj([])), "role", Str("unknown")),
                          Truncate(joined, ContentLimit)))
  }

  /** `msg.get('content') or msg.get('text') or ''`. */
  function ContentOrText(msg: Value): Value {
    var content := GetOr(msg, "content", Null);
    var text := GetOr(msg, "text", Null);
    if Truthy(content) then content else if Truthy(text) then text else Str("")
  }

  /** One element of a `messages` list (lines 164-169). */
  function ListedMessage(msg: Value): Option<Message> {
    var content := ContentOrText(msg);
    if !Truthy(content) then None
    else Some(Message(GetOr(msg, "role", GetOr(msg, "author", Str("unknown"))),
                      Truncate(PyStr(content), ContentLimit)))
  }

  /** One element of an `items` list (lines 174-178): a dict that has `content`. */
  function ItemMessage(item: Value): Option<Message> {
    if item.Obj? && Has(item, "content") then
      Some(Message(GetOr(item, "role", Str("unknown")), Truncate(PyStr(GetOr(item, "content", Null)), ContentLimit)))
    else None
  }

  /** One `(node_id, node)` entry of a `mapping` dict; the id plays no part. */
  function MappingNode(entry: (string, Value)): Option<Message> {
    NodeMessage(entry.1)
  }

  /**
   * The message list: the first of `mapping`, `messages`, `items` that the
   * record has decides, and a `mapping` that is not a dict or a `messages`
   * that is not a list gives no messages.
   */
  function Messages(conv: Value): seq<Message> {
    if Has(conv, "mapping") then
      match GetOr(conv, "mapping", Null)
      case Obj(nodes) => Collect(nodes, MappingNode)
      case _ => []
    else if Has(conv, "messages") then
      match GetOr(conv, "messages", Null)
      case Arr(msgs) => Collect(msgs, ListedMessage)
      case _ => []
    else if Has(conv, "items") then
      Collect(Iterate(GetOr(conv, "items", Null)), ItemMessage)
    else []
  }

  /**
   * `conv.get('create_time') or conv.get('created_at') or conv.get('timestamp')`:
   * the first truthy of the three, else the last one (`None` when absent).
   */
  function OutputTimestamp(conv: Value): Value {
    var createTime := GetOr(conv, "create_time", Null);
    var createdAt := GetOr(conv, "created_at", Null);
    if Truthy(createTime) then createTime
    else if Truthy(createdAt) then createdAt
    else GetOr(conv, "timestamp", Null)
  }

  /** `str(conv.get('title', ''))[:100]`. */
  function Title(conv: Value): (r: string)
    ensures var full := PyStr(GetOr(conv, "title", Str("")));
            r <= full && |r| == if |full| <= TitleLimit then |full| else TitleLimit
    ensures !Has(conv, "title") ==> r == ""
  {
    Truncate(PyStr(GetOr(conv, "title", Str(""))), TitleLimit)
  }

  /** What `minimize_conv(conv)` returns. */
  function Minimized(conv: Value): Minimal {
    Minimal(Messages(conv), OutputTimestamp(conv), Title(conv))
  }

  /**
   * The append loop each strategy runs: visit the elements in order and
   * append the message each one gives, if any.
   */
  method CollectEach<T>(xs: seq<T>, f: T -> Option<Message>) returns (messages: seq<Message>)
    ensures messages == Collect(xs, f)
  {
    messages := [];
    for i := 0 to |xs|
      invariant messages == Collect(xs[..i], f)
    {
      assert xs[..i + 1][..i] == xs[..i];
      var m := f(xs[i]);
      if m.Some? {
        messages := messages + [m.value];
      }
    }
    assert xs[..|xs|] == xs;
  }

  /** `minimize_conv`: the strategy chosen by key, then an append loop over the chosen collection. */
  method MinimizeConv(conv: Value) returns (result: Minimal)
    ensures result == Minimized(conv)
  {
    var messages: seq<Message> := [];
    if Has(conv, "mapping") {
      var msgList := GetOr(conv, "mapping", Null);
      if msgList.Obj? {
        messages := CollectEach(msgList.fields, MappingNode);
      }
    } else if Has(conv, "messages") {
      var msgList := GetOr(conv, "messages", Null);
      if msgList.Arr? {
        messages := CollectEach(msgList.items, ListedMessage);
      }
    } else if Has(conv, "items") {
      messages := CollectEach(Iterate(GetOr(conv, "items", Null)), ItemMessage);
    }
    result := Minimal(messages, OutputTimestamp(conv), Title(conv));
  }


  /**
   * Every emitted content is at most 5000 characters and is a prefix of the
   * text it was taken from: the joined parts of a mapping node, `str()` of
   * a message's content or text, `str()` of an item's content.
   */
  lemma ContentIsBoundedPrefix(conv: Value)
    ensures forall m :: m in Messages(conv) ==> |m.content| <= ContentLimit
    ensures Has(conv, "mapping") && GetOr(conv, "mapping", Null).Obj? ==>
              forall m :: m in Messages(conv) ==>
                exists i :: 0 <= i < |GetOr(conv, "mapping", Null).fields|
                            && m.content <= JoinedParts(NodeParts(GetOr(conv, "mapping", Null).fields[i].1))
    ensures !Has(conv, "mapping") && Has(conv, "messages") && GetOr(conv, "messages", Null).Arr? ==>
              forall m :: m in Messages(conv) ==>
                exists i :: 0 <= i < |GetOr(conv, "messages", Null).items|
                            && m.content <= PyStr(ContentOrText(GetOr(conv, "messages", Null).items[i]))
    ensures !Has(conv, "mapping") && !Has(conv, "messages") && Has(conv, "items") ==>
              forall m :: m in Messages(conv) ==>
                exists i :: 0 <= i < |Iterate(GetOr(conv, "items", Null))|
                            && m.content <= PyStr(GetOr(Iterate(GetOr(conv, "items", Null))[i], "content", Null))
  {
    if Has(conv, "mapping") {
      var mapping := GetOr(conv, "mapping", Null);
      if mapping.Obj? {
        CollectFrom(mapping.fields, MappingNode);
      }
    } else if Has(conv, "messages") {
      var msgs := GetOr(conv, "messages", Null);
      if msgs.Arr? {
        CollectFrom(msgs.items, ListedMessage);
      }
    } else if Has(conv, "items") {
      CollectFrom(Iterate(GetOr(conv, "items", Null)), ItemMessage);
    }
  }

  /**
   * Exactly one strategy is used: the messages of a record with `mapping`
   * depend on its mapping alone, whatever `messages` or `items` hold, and
   * are empty when the mapping is not a dict; the messages of a record with
   * `messages` and no `mapping` depend on `messages` alone.
   */
  lemma StrategyByFirstKey(conv: Value, other: Value)
    ensures Has(conv, "mapping") && !GetOr(conv, "mapping", Null).Obj? ==> Messages(conv) == []
    ensures Has(conv, "mapping") && Has(other, "mapping") && GetOr(conv, "mapping", Null) == GetOr(other, "mapping", Null)
            ==> Messages(conv) == Messages(other)
    ensures !Has(conv, "mapping") && !Has(other, "mapping") && Has(conv, "messages") && Has(other, "messages")
            && GetOr(conv, "messages", Null) == GetOr(other, "messages", Null)
            ==> Messages(conv) == Messages(other)
  {
  }

  /**
   * A `messages` element becomes a message exactly when its content-or-text
   * is truthy; its role is `role` if present, else `author` if present,
   * else "unknown", and its content is `str()` of that value cut to 5000.
   */
  lemma ListedMessageRules(msg: Value)
    ensures ListedMessage(msg).Some? <==> Truthy(GetOr(msg, "content", Null)) || Truthy(GetOr(msg, "text", Null))
    ensures ListedMessage(msg).Some? ==>
              && ListedMessage(msg).value.role
                 == (if Has(msg, "role") then GetOr(msg, "role", Null)
                     else if Has(msg, "author") then GetOr(msg, "author", Null)
                     else Str("unknown"))
              && ListedMessage(msg).value.content != []
              && ListedMessage(msg).value.content
                 == Truncate(PyStr(if Truthy(GetOr(msg, "content", Null)) then GetOr(msg, "content", Null)
                                   else GetOr(msg, "text", Null)), ContentLimit)
  {
    if ListedMessage(msg).Some? {
      PyStrOfTruthy(ContentOrText(msg));
    }
  }

  /**
   * In the `messages` strategy every element whose content-or-text is truthy
   * is emitted, in source order.
   */
  lemma ListedMessagesInOrder(conv: Value, i: nat, j: nat)
    requires !Has(conv, "mapping") && Has(conv, "messages") && GetOr(conv, "messages", Null).Arr?
    requires var msgs := GetOr(conv, "messages", Null).items;
             i < j < |msgs| && Truthy(ContentOrText(msgs[i])) && Truthy(ContentOrText(msgs[j]))
    ensures var msgs := GetOr(conv, "messages", Null).items;
            exists k, l :: 0 <= k < l < |Messages(conv)|
                           && Messages(conv)[k] == ListedMessage(msgs[i]).value
                           && Messages(conv)[l] == ListedMessage(msgs[j]).value
  {
    var msgs := GetOr(conv, "messages", Null).items;
    assert Messages(conv) == Collect(msgs, ListedMessage);
    assert ListedMessage(msgs[i]).Some? && ListedMessage(msgs[j]).Some?;
    CollectKeepsAll(msgs, ListedMessage, i, j);
  }

  /**
   * An `items` element becomes a message exactly when it is a dict with a
   * `content` key, whatever that content is (even falsy); its role defaults
   * to "unknown" and its content is `str()` of the value cut to 5000.
   */
  lemma ItemMessageRules(item: Value)
    ensures ItemMessage(item).Some? <==> item.Obj? && Has(item, "content")
    ensures ItemMessage(item).Some? ==>
              && ItemMessage(item).value.role == (if Has(item, "role") then GetOr(item, "role", Null) else Str("unknown"))
              && ItemMessage(item).value.content == Truncate(PyStr(GetOr(item, "content", Null)), ContentLimit)
              && |ItemMessage(item).value.content| <= ContentLimit
  {
  }

  /**
   * A mapping node becomes a message exactly when it has a truthy `message`
   * with a truthy `content` whose `parts` are truthy and join to a non-blank
   * text; the role is the author's `role`, "unknown" when the author or its
   * role is missing.
   */
  lemma NodeMessageRules(node: Value)
    ensures var message := GetOr(node, "message", Null);
            var parts := NodeParts(node);
            NodeMessage(node).Some? <==>
              Truthy(message) && Truthy(GetOr(message, "content", Null)) && Truthy(parts) && !IsBlank(JoinedParts(parts))
    ensures var message := GetOr(node, "message", Null);
            NodeMessage(node).Some? ==>
              && NodeMessage(node).value.content == Truncate(JoinedParts(NodeParts(node)), ContentLimit)
              && NodeMessage(node).value.role
                 == (if Has(GetOr(message, "author", Obj([])), "role") then GetOr(GetOr(message, "author", Obj([])), "role", Null)
                     else Str("unknown"))
  {
  }


  /**
   * The output timestamp is the first truthy of `create_time`,
   * `created_at`, `timestamp`; when none is truthy it is the value of
   * `timestamp`, which is `None` when that key is absent.
   */
  lemma OutputTimestampRules(conv: Value)
    ensures Truthy(OutputTimestamp(conv)) <==>
              Truthy(GetOr(conv, "create_time", Null)) || Truthy(GetOr(conv, "created_at", Null))
              || Truthy(GetOr(conv, "timestamp", Null))
    ensures Truthy(GetOr(conv, "create_time", Null)) ==> OutputTimestamp(conv) == GetOr(conv, "create_time", Null)
    ensures !Truthy(GetOr(conv, "create_time", Null)) && Truthy(GetOr(conv, "created_at", Null))
            ==> OutputTimestamp(conv) == GetOr(conv, "created_at", Null)
    ensures !Truthy(GetOr(conv, "create_time", Null)) && !Truthy(GetOr(conv, "created_at", Null))
            ==> OutputTimestamp(conv) == GetOr(conv, "timestamp", Null)
    ensures !Has(conv, "create_time") && !Has(conv, "created_at") && !Has(conv, "timestamp") ==> OutputTimestamp(conv) == Null
  {
  }
}
