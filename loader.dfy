/**
 * Loading an export: the outcome of reading and parsing the file, and the
 * normalisation of the document's top-level shape into the list of
 * conversation records (scripts/split-conversations.py, lines 20-45).
 */
module Loader {
  import opened Wrappers
  import opened Json

  /** Why one input produces no output files at all. */
  datatype LoadError =
    | FileNotFound          // `open` raised FileNotFoundError
    | InvalidJson           // `json.load` raised JSONDecodeError
    | UnexpectedStructure   // the document is neither a dict nor a list
    | NotAList              // the selected conversations value is not a list

  /**
   * `[v for v in data.values() if isinstance(v, list)]`, then its first
   * element, or `[]` when there is none.
   */
  function FirstList(fields: seq<(string, Value)>): Value {
    if fields == [] then Arr([])
    else if fields[0].1.Arr? then fields[0].1
    else FirstList(fields[1..])
  }

  /**
   * The value the script goes on to iterate as its conversations: first
   * match wins among the `conversations` key, the `items` key, the first
   * list-valued entry; a list document is taken as it is.
   */
  function SelectConversations(doc: Value): Result<Value, LoadError> {
    match doc
    case Obj(fields) =>
      (match Lookup(fields, "conversations")
       case Some(v) => Ok(v)
       case None =>
         (match Lookup(fields, "items")
          case Some(v) => Ok(v)
          case None => Ok(FirstList(fields))))
    case Arr(_) => Ok(doc)
    case _ => Err(UnexpectedStructure)
  }

  /** The records of a document, or why there are none to process. */
  function Conversations(doc: Value): Result<seq<Value>, LoadError> {
    match SelectConversations(doc)
    case Ok(Arr(records)) => Ok(records)
    case Ok(_) => Err(NotAList)
    case Err(e) => Err(e)
  }

  /**
   * The fallback is the first list-valued entry in key order: it is a list,
   * every earlier entry is not, and when there is no list-valued entry the
   * result is the empty list.
   */
  lemma {:induction false} FirstListIsFirst(fields: seq<(string, Value)>)
    ensures FirstList(fields).Arr?
    ensures (forall i :: 0 <= i < |fields| ==> !fields[i].1.Arr?) ==> FirstList(fields) == Arr([])
    ensures (exists i :: 0 <= i < |fields| && fields[i].1.Arr?) ==>
              exists i :: 0 <= i < |fields| && fields[i].1 == FirstList(fields)
                          && forall j :: 0 <= j < i ==> !fields[j].1.Arr?
  {
    if fields != [] && !fields[0].1.Arr? {
      var rest := fields[1..];
      FirstListIsFirst(rest);
      if exists i :: 0 <= i < |fields| && fields[i].1.Arr? {
        var i :| 0 <= i < |fields| && fields[i].1.Arr?;
        assert rest[i - 1] == fields[i];
        var k :| 0 <= k < |rest| && rest[k].1 == FirstList(rest) && forall j :: 0 <= j < k ==> !rest[j].1.Arr?;
        assert fields[k + 1] == rest[k];
        forall j | 0 <= j < k + 1 ensures !fields[j].1.Arr? {
          if j > 0 { assert fields[j] == rest[j - 1]; }
        }
      } else {
        forall i | 0 <= i < |rest| ensures !rest[i].1.Arr? {
          assert rest[i] == fields[i + 1];
        }
      }
    }
  }

  /**
   * Shape normalisation, first match wins: `conversations` beats `items`,
   * `items` beats the list-valued fallback, a list is kept unchanged and
   * any other document is refused.
   */
  lemma SelectionOrder(doc: Value)
    ensures doc.Obj? && Has(doc, "conversations") ==>
              SelectConversations(doc) == Ok(GetOr(doc, "conversations", Null))
    ensures doc.Obj? && !Has(doc, "conversations") && Has(doc, "items") ==>
              SelectConversations(doc) == Ok(GetOr(doc, "items", Null))
    ensures doc.Obj? && !Has(doc, "conversations") && !Has(doc, "items") ==>
              SelectConversations(doc) == Ok(FirstList(doc.fields)) && FirstList(doc.fields).Arr?
    ensures doc.Arr? ==> Conversations(doc) == Ok(doc.items)
    ensures !doc.Obj? && !doc.Arr? ==> Conversations(doc) == Err(UnexpectedStructure)
  {
    if doc.Obj? {
      FirstListIsFirst(doc.fields);
    }
  }

  /**
   * A dict without `conversations` and `items` never fails to load: it gives
   * its first list-valued entry's elements, or no records at all.
   */
  lemma FallbackNeverFails(doc: Value)
    requires doc.Obj? && !Has(doc, "conversations") && !Has(doc, "items")
    ensures Conversations(doc).Ok?
    ensures (forall i :: 0 <= i < |doc.fields| ==> !doc.fields[i].1.Arr?) ==> Conversations(doc) == Ok([])
  {
    FirstListIsFirst(doc.fields);
  }
}
