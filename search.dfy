/**
 * The two ways of finding a transaction by id that the search utilities compare:
 * a linear scan of the list, and a get on a dictionary keyed by id.
 */
module Search {
  import opened Wrappers
  import opened Json
  import opened Ledger

  /** `linear_search`: scan the list in order and return the first record with the id. */
  function LinearSearch(txs: seq<Transaction>, targetId: int): (r: Option<Transaction>)
    ensures r.None? <==> forall i :: 0 <= i < |txs| ==> txs[i].id != targetId
    ensures r.Some? ==> r.value in txs && r.value.id == targetId
  {
    if txs == [] then None
    else if txs[0].id == targetId then Some(txs[0])
    else LinearSearch(txs[1..], targetId)
  }

  /** The record found is the first in list order that carries the id. */
  lemma {:induction false} LinearSearchFindsFirst(txs: seq<Transaction>, targetId: int, i: nat)
    requires i < |txs| && txs[i].id == targetId
    requires forall j :: 0 <= j < i ==> txs[j].id != targetId
    ensures LinearSearch(txs, targetId) == Some(txs[i])
  {
    if i > 0 {
      LinearSearchFindsFirst(txs[1..], targetId, i - 1);
    }
  }

  /**
   * `create_transaction_dict`: the comprehension `{tx['id']: tx for tx in txs}`.
   * Its keys are exactly the ids of the list, and every key maps to a record
   * of the list carrying that id.
   */
  function CreateTransactionDict(txs: seq<Transaction>): (m: map<int, Transaction>)
    ensures m.Keys == set t | t in txs :: t.id
    ensures forall k :: k in m ==> m[k] in txs && m[k].id == k
  {
    if txs == [] then map[]
    else
      var last := txs[|txs| - 1];
      var m := CreateTransactionDict(txs[..|txs| - 1]);
      assert txs == txs[..|txs| - 1] + [last];
      m[last.id := last]
  }

  /** Later entries of the comprehension overwrite earlier ones: a key maps to the LAST record with it. */
  lemma {:induction false} DictHoldsLast(txs: seq<Transaction>, i: nat)
    requires i < |txs|
    requires forall j :: i < j < |txs| ==> txs[j].id != txs[i].id
    ensures CreateTransactionDict(txs)[txs[i].id] == txs[i]
  {
    if i < |txs| - 1 {
      DictHoldsLast(txs[..|txs| - 1], i);
    }
  }

  /** `dictionary_lookup`: `transactions_dict.get(target_id)`, the mapped record or nothing. */
  function DictionaryLookup(m: map<int, Transaction>, targetId: int): Option<Transaction> {
    if targetId in m then Some(m[targetId]) else None
  }

  /** With unique ids both ways of finding a transaction give the same answer, for every id. */
  lemma LookupAgreesWithLinearSearch(txs: seq<Transaction>, targetId: int)
    requires UniqueIds(txs)
    ensures DictionaryLookup(CreateTransactionDict(txs), targetId) == LinearSearch(txs, targetId)
  {
    match FirstIndex(txs, targetId)
    case None =>
    case Some(i) =>
      LinearSearchFindsFirst(txs, targetId, i);
      DictHoldsLast(txs, i);
  }

  /** Without unique ids they differ: the scan finds the first duplicate, the dictionary the last. */
  lemma DuplicateIdsDisagree(first: Transaction, second: Transaction)
    requires first.id == second.id && first != second
    ensures LinearSearch([first, second], first.id) == Some(first)
    ensures DictionaryLookup(CreateTransactionDict([first, second]), first.id) == Some(second)
  {
    DictHoldsLast([first, second], 1);
  }
}
