/**
 * The transaction record shared by the API, the search utilities and the ETL step,
 * and the id-based facts about a list of records that all three rely on.
 */
module Ledger {
  import opened Wrappers
  import opened Json

  /** The four business fields: required on create, updateable on update. */
  datatype Field = TransactionType | Amount | Sender | Receiver {

    /** The JSON key of the field. */
    function Name(): string {
      match this
      case TransactionType => "transaction_type"
      case Amount => "amount"
      case Sender => "sender"
      case Receiver => "receiver"
    }
  }

  /** The order in which `required` and `updateable` list the fields. */
  const BusinessFields: seq<Field> := [TransactionType, Amount, Sender, Receiver]

  /** A transaction as a JSON object: an id, the four business fields and a timestamp. */
  datatype Transaction = Transaction(
    id: int,
    transactionType: Value,
    amount: Value,
    sender: Value,
    receiver: Value,
    timestamp: string)
  {
    /** `tx[f.Name()]` for a business field. */
    function Get(f: Field): Value {
      match f
      case TransactionType => transactionType
      case Amount => amount
      case Sender => sender
      case Receiver => receiver
    }

    /** `tx[f.Name()] = v`: the one field changes, nothing else does. */
    function With(f: Field, v: Value): (r: Transaction)
      ensures r.id == id && r.timestamp == timestamp
      ensures forall g :: r.Get(g) == if g == f then v else Get(g)
    {
      match f
      case TransactionType => this.(transactionType := v)
      case Amount => this.(amount := v)
      case Sender => this.(sender := v)
      case Receiver => this.(receiver := v)
    }
  }

  /** No two records of the list carry the same id. */
  ghost predicate UniqueIds(s: seq<Transaction>) {
    forall i, j :: 0 <= i < j < |s| ==> s[i].id != s[j].id
  }

  /** The position of the first record carrying `id` (the `enumerate` scan of the handlers). */
  function FirstIndex(s: seq<Transaction>, id: int): (r: Option<nat>)
    ensures r.Some? ==> r.value < |s| && s[r.value].id == id
    ensures r.Some? ==> forall j :: 0 <= j < r.value ==> s[j].id != id
    ensures r.None? <==> forall j :: 0 <= j < |s| ==> s[j].id != id
  {
    if s == [] then None
    else if s[0].id == id then Some(0)
    else match FirstIndex(s[1..], id)
      case None => None
      case Some(k) => Some(k + 1)
  }

  /** A record with no earlier record of the same id is the one found first. */
  lemma FirstIndexAt(s: seq<Transaction>, id: int, i: nat)
    requires i < |s| && s[i].id == id
    requires forall j :: 0 <= j < i ==> s[j].id != id
    ensures FirstIndex(s, id) == Some(i)
  {
    var k := FirstIndex(s, id).value;
    assert s[k].id == id;
  }

  /** Under unique ids the first record with an id is the only one. */
  lemma FirstIndexUnique(s: seq<Transaction>, i: nat)
    requires UniqueIds(s) && i < |s|
    ensures FirstIndex(s, s[i].id) == Some(i)
  {
  }
}
