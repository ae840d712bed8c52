/**
 * The request handler as the server runs it: one object per process holding the
 * shared transaction list, with methods that scan, append, patch in place and pop,
 * each proved to give the response and the new list that module Api prescribes.
 */
module Server {
  import opened Wrappers
  import opened Text
  import opened Json
  import opened Ledger
  import opened Search
  import opened Api

  class TransactionHandler {
    /** The module-level `TRANSACTIONS` list that every request works on. */
    var transactions: seq<Transaction>

    /** The store as loaded at start-up. */
    constructor (initial: seq<Transaction>)
      ensures transactions == initial
    {
      transactions := initial;
    }

    /** `_get_all_transactions`: the count and the whole list, in order. */
    method GetAllTransactions() returns (r: Response)
      ensures r == ListAll(transactions)
      ensures r.status == 200 && r.content.count == |transactions| && r.content.records == transactions
    {
      r := Response(200, Listing(|transactions|, transactions));
    }

    /** `_get_transaction`: scan for the first record with the id. */
    method GetTransaction(id: nat) returns (r: Response)
      ensures r == GetOne(transactions, id)
    {
      var i := 0;
      while i < |transactions|
        invariant 0 <= i <= |transactions|
        invariant forall j :: 0 <= j < i ==> transactions[j].id != id
      {
        if transactions[i].id == id {
          LinearSearchFindsFirst(transactions, id, i);
          return Response(200, Single(transactions[i]));
        }
        i := i + 1;
      }
      r := RecordNotFound(id);
    }

    /** `_create_transaction`: check the required fields in order, then append the new record. */
    method CreateTransaction(body: RequestBody, now: string) returns (r: Response)
      modifies this
      ensures (transactions, r) == Create(old(transactions), body, now)
    {
      match body
      case Unreadable => return Fault();
      case Malformed => return InvalidJson();
      case Parsed(v) =>
        var k := 0;
        while k < |BusinessFields|
          invariant 0 <= k <= |BusinessFields|
          invariant CheckRequired(v, BusinessFields) == CheckRequired(v, BusinessFields[k..])
        {
          var f := BusinessFields[k];
          assert BusinessFields[k..][0] == f && BusinessFields[k..][1..] == BusinessFields[k + 1..];
          var present := Membership(v, f.Name());
          if present.None? {
            return Fault();
          }
          if !present.value {
            return Response(400, Failure("Bad Request", Some("Missing field: " + f.Name())));
          }
          k := k + 1;
        }
        var newId := NewId(transactions);
        var kind := Subscript(v, TransactionType.Name());
        var amount := Subscript(v, Amount.Name());
        var sender := Subscript(v, Sender.Name());
        var receiver := Subscript(v, Receiver.Name());
        if kind.None? || amount.None? || sender.None? || receiver.None? {
          return Fault();
        }
        var tx := Transaction(newId, kind.value, amount.value, sender.value, receiver.value, now);
        transactions := transactions + [tx];
        r := Response(201, Notice("Transaction created", tx));
    }

    /** `_update_transaction`: find the record, read the body, overwrite the present fields in place. */
    method UpdateTransaction(id: nat, body: RequestBody) returns (r: Response)
      modifies this
      ensures (transactions, r) == Update(old(transactions), id, body)
    {
      var i := 0;
      var found := false;
      while i < |transactions|
        invariant 0 <= i <= |transactions|
        invariant forall j :: 0 <= j < i ==> transactions[j].id != id
      {
        if transactions[i].id == id {
          found := true;
          break;
        }
        i := i + 1;
      }
      if !found {
        return RecordNotFound(id);
      }
      FirstIndexAt(transactions, id, i);
      var orig := transactions[i];
      match body
      case Unreadable => return Fault();
      case Malformed => return InvalidJson();
      case Parsed(v) =>
        var cur := orig;
        var k := 0;
        assert transactions[i := orig] == transactions;
        while k < |BusinessFields|
          invariant 0 <= k <= |BusinessFields|
          invariant Patch(v, orig, BusinessFields) == Patch(v, cur, BusinessFields[k..])
          invariant transactions == old(transactions)[i := cur]
          invariant !v.Object? ==> cur == orig
        {
          var f := BusinessFields[k];
          assert BusinessFields[k..][0] == f && BusinessFields[k..][1..] == BusinessFields[k + 1..];
          var present := Membership(v, f.Name());
          if present.None? {
            return Fault();
          }
          if present.value {
            var x := Subscript(v, f.Name());
            if x.None? {
              return Fault();
            }
            cur := cur.With(f, x.value);
            transactions := transactions[i := cur];
          }
          k := k + 1;
        }
        r := Response(200, Notice("Transaction updated", cur));
    }

    /** `_delete_transaction`: scan with the index and pop the first record with the id. */
    method DeleteTransaction(id: nat) returns (r: Response)
      modifies this
      ensures (transactions, r) == Remove(old(transactions), id)
    {
      var i := 0;
      while i < |transactions|
        invariant 0 <= i <= |transactions|
        invariant transactions == old(transactions)
        invariant forall j :: 0 <= j < i ==> transactions[j].id != id
      {
        if transactions[i].id == id {
          FirstIndexAt(transactions, id, i);
          var deleted := transactions[i];
          transactions := transactions[..i] + transactions[i + 1..];
          return Response(200, Notice("Transaction deleted", deleted));
        }
        i := i + 1;
      }
      r := RecordNotFound(id);
    }

    /** `do_GET`: authenticate, then the item route before the collection route. */
    method DoGet(req: Request, decode: Decoder) returns (r: Response)
      requires req.verb.Get?
      ensures forall now :: Handle(transactions, req, decode, now) == (transactions, r)
    {
      var auth := Authenticate(req.authorization, decode);
      if auth.Denied? {
        return Response(401, Failure("Unauthorized", Some(auth.reason)));
      }
      var item := MatchItem(req.path);
      if item.Some? {
        r := GetTransaction(item.value);
        return;
      }
      if req.path == CollectionPath {
        r := GetAllTransactions();
        return;
      }
      r := RouteNotFound();
    }

    /** `do_POST`: authenticate, then create on the collection path only. */
    method DoPost(req: Request, decode: Decoder, now: string) returns (r: Response)
      requires req.verb.Post?
      modifies this
      ensures (transactions, r) == Handle(old(transactions), req, decode, now)
    {
      var auth := Authenticate(req.authorization, decode);
      if auth.Denied? {
        return Response(401, Failure("Unauthorized", Some(auth.reason)));
      }
      if req.path == CollectionPath {
        r := CreateTransaction(req.body, now);
        return;
      }
      r := RouteNotFound();
    }

    /** `do_PUT`: authenticate, then update on an item path only. */
    method DoPut(req: Request, decode: Decoder) returns (r: Response)
      requires req.verb.Put?
      modifies this
      ensures forall now :: (transactions, r) == Handle(old(transactions), req, decode, now)
    {
      var auth := Authenticate(req.authorization, decode);
      if auth.Denied? {
        return Response(401, Failure("Unauthorized", Some(auth.reason)));
      }
      var item := MatchItem(req.path);
      if item.Some? {
        r := UpdateTransaction(item.value, req.body);
        return;
      }
      r := RouteNotFound();
    }

    /** `do_DELETE`: authenticate, then delete on an item path only. */
    method DoDelete(req: Request, decode: Decoder) returns (r: Response)
      requires req.verb.Delete?
      modifies this
      ensures forall now :: (transactions, r) == Handle(old(transactions), req, decode, now)
    {
      var auth := Authenticate(req.authorization, decode);
      if auth.Denied? {
        return Response(401, Failure("Unauthorized", Some(auth.reason)));
      }
      var item := MatchItem(req.path);
      if item.Some? {
        r := DeleteTransaction(item.value);
        return;
      }
      r := RouteNotFound();
    }
  }
}
