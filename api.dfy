/**
 * The transaction REST API as a function of the store and one request:
 * the Basic authentication gate, the routing of method and path, and the five
 * store operations (list, get, create, update, delete) with their error paths.
 * The class in module Server runs the same operations in place and is proved
 * to agree with these functions.
 */
module Api {
  import opened Wrappers
  import opened Text
  import opened Json
  import opened Ledger
  import opened Search

  /** The fixed credential pair the gate compares against. */
  const AuthUsername: string := "admin"
  const AuthPassword: string := "admin123"

  const CollectionPath: string := "/transactions"
  const ItemPrefix: string := "/transactions/"

  /** The four verbs the handler defines a `do_` method for. */
  datatype Method = Get | Post | Put | Delete

  /** The request body, as far as the handler gets in reading it. */
  datatype RequestBody =
    | Unreadable            // Content-Length is not an integer or the bytes are not UTF-8
    | Malformed             // `json.loads` raises `JSONDecodeError`
    | Parsed(value: Value)  // any JSON value, not necessarily an object

  /** A request after `urlparse`: the verb, the path, the Authorization header if sent, and the body. */
  datatype Request = Request(verb: Method, path: string, authorization: Option<string>, body: RequestBody)

  /** The JSON body of a response, by shape. */
  datatype Content =
    | Failure(error: string, detail: Option<string>)   // {"error": ..., "message": ...}
    | ServerFault                                      // {"error": "Server Error", "message": str(e)}
    | Listing(count: nat, records: seq<Transaction>)   // {"count": ..., "data": [...]}
    | Single(tx: Transaction)                          // the bare record
    | Notice(message: string, data: Transaction)       // {"message": ..., "data": record}

  datatype Response = Response(status: nat, content: Content)

  /** Base64 decoding followed by UTF-8 decoding; `None` where either raises. */
  type Decoder = string -> Option<string>

  // ---------------------------------------------------------------------------
  // Authentication

  datatype AuthOutcome = Granted | Denied(reason: string)

  /** `_check_auth`: the outcome of the Basic authentication gate. */
  function Authenticate(header: Option<string>, decode: Decoder): AuthOutcome {
    var h := header.GetOr("");
    if !IsPrefix("Basic ", h) then Denied("Missing Authorization header")
    else match decode(h[6..])
      case None => Denied("Invalid Authorization header")
      case Some(text) =>
        match SplitOnce(text, ':')
        case None => Denied("Invalid Authorization header")
        case Some(parts) =>
          if parts.0 == AuthUsername && parts.1 == AuthPassword then Granted
          else Denied("Invalid credentials")
  }

  /** Access is granted exactly when the header is `Basic ` followed by an encoding of `admin:admin123`. */
  lemma AuthGrantedIff(header: Option<string>, decode: Decoder)
    ensures Authenticate(header, decode) == Granted <==>
            var h := header.GetOr("");
            IsPrefix("Basic ", h) && decode(h[6..]) == Some(AuthUsername + ":" + AuthPassword)
  {
    var h := header.GetOr("");
    if IsPrefix("Basic ", h) && decode(h[6..]) == Some(AuthUsername + ":" + AuthPassword) {
      SplitOnceUnique(AuthUsername + ":" + AuthPassword, ':', AuthUsername, AuthPassword);
    }
  }

  /** Every refusal carries one of three reasons, and which one is decided by how far the header got. */
  lemma AuthDeniedReasons(header: Option<string>, decode: Decoder)
    ensures var h := header.GetOr("");
            var r := Authenticate(header, decode);
            && (r == Denied("Missing Authorization header") <==> !IsPrefix("Basic ", h))
            && (r == Denied("Invalid Authorization header") <==>
                  IsPrefix("Basic ", h) && (decode(h[6..]).None? || ':' !in decode(h[6..]).value))
            && (r == Denied("Invalid credentials") <==>
                  IsPrefix("Basic ", h) && decode(h[6..]).Some? && ':' in decode(h[6..]).value &&
                  decode(h[6..]).value != AuthUsername + ":" + AuthPassword)
  {
    AuthGrantedIff(header, decode);
  }

  // ---------------------------------------------------------------------------
  // Routing

  /** `re.match(r'^/transactions/(\d+)$', path)` followed by `int(...)` of the digits. */
  function MatchItem(path: string): Option<nat> {
    if IsPrefix(ItemPrefix, path) && |path| > |ItemPrefix| && AllDigits(path[|ItemPrefix|..])
    then Some(DecimalValue(path[|ItemPrefix|..]))
    else None
  }

  /** The path of a record's id, as rendered in decimal, routes to that id. */
  lemma ItemRouteRoundTrip(n: nat)
    ensures MatchItem(ItemPrefix + DecimalString(n)) == Some(n)
  {
    var path := ItemPrefix + DecimalString(n);
    assert path[|ItemPrefix|..] == DecimalString(n);
    assert path[..|ItemPrefix|] == ItemPrefix;
    DecimalRoundTrip(n);
  }

  /** Any run of digits after the prefix routes, leading zeros included, to the value `int()` reads. */
  lemma ItemRouteDigits(d: string)
    requires |d| > 0 && AllDigits(d)
    ensures MatchItem(ItemPrefix + d) == Some(DecimalValue(d))
  {
    var path := ItemPrefix + d;
    assert path[|ItemPrefix|..] == d;
    assert path[..|ItemPrefix|] == ItemPrefix;
  }

  /** `/transactions/007` routes to id 7, though `str(7)` is "7". */
  lemma LeadingZerosRoute()
    ensures MatchItem("/transactions/007") == Some(7)
  {
    var d := "007";
    assert DecimalValue(d[..0]) == 0 && DecimalValue(d[..1]) == 0 && DecimalValue(d[..2]) == 0;
    assert ItemPrefix + d == "/transactions/007";
    ItemRouteDigits(d);
  }

  /** The two path patterns never match the same path, so their order in `do_GET` does not matter. */
  lemma RoutePatternsDisjoint(path: string)
    ensures MatchItem(path).Some? ==> path != CollectionPath
  {
  }

  function RouteNotFound(): Response {
    Response(404, Failure("Not Found", None))
  }

  function RecordNotFound(id: nat): Response {
    Response(404, Failure("Not Found", Some("Transaction " + DecimalString(id) + " not found")))
  }

  function InvalidJson(): Response {
    Response(400, Failure("Bad Request", Some("Invalid JSON")))
  }

  function Fault(): Response {
    Response(500, ServerFault)
  }

  // ---------------------------------------------------------------------------
  // List and get

  /** `_get_all_transactions`. */
  function ListAll(s: seq<Transaction>): Response {
    Response(200, Listing(|s|, s))
  }

  /** `_get_transaction`: the scan is `linear_search`. */
  function GetOne(s: seq<Transaction>, id: nat): Response {
    match LinearSearch(s, id)
    case Some(tx) => Response(200, Single(tx))
    case None => RecordNotFound(id)
  }

  /** A get answers with the first record carrying the id, and with 404 exactly when none does. */
  lemma GetFindsFirst(s: seq<Transaction>, id: nat)
    ensures GetOne(s, id).status == 404 <==> forall j :: 0 <= j < |s| ==> s[j].id != id
    ensures GetOne(s, id).status == 404 ==> GetOne(s, id) == RecordNotFound(id)
    ensures FirstIndex(s, id).Some? ==> GetOne(s, id) == Response(200, Single(s[FirstIndex(s, id).value]))
  {
    if FirstIndex(s, id).Some? {
      LinearSearchFindsFirst(s, id, FirstIndex(s, id).value);
    }
  }

  /** The listing reports the whole store, and with unique ids every listed record can be fetched by its id. */
  lemma ListedRecordsAreGettable(s: seq<Transaction>, i: nat)
    requires UniqueIds(s) && i < |s| && s[i].id >= 0
    ensures ListAll(s).content.count == |s| && ListAll(s).content.records[i] == s[i]
    ensures GetOne(s, s[i].id) == Response(200, Single(s[i]))
  {
    FirstIndexUnique(s, i);
    GetFindsFirst(s, s[i].id);
  }

  // ---------------------------------------------------------------------------
  // Create

  /** The largest id of a non-empty store. */
  function MaxId(s: seq<Transaction>): (m: int)
    requires |s| > 0
    ensures forall i :: 0 <= i < |s| ==> s[i].id <= m
    ensures exists i :: 0 <= i < |s| && s[i].id == m
  {
    if |s| == 1 then s[0].id
    else
      var m := MaxId(s[..|s| - 1]);
      if s[|s| - 1].id > m then s[|s| - 1].id else m
  }

  /**
   * `max([tx['id'] for tx in TRANSACTIONS], default=0) + 1`: 1 on an empty store,
   * otherwise one more than the largest id, so strictly above every live id.
   */
  function NewId(s: seq<Transaction>): (r: int)
    ensures forall i :: 0 <= i < |s| ==> s[i].id < r
    ensures s == [] ==> r == 1
    ensures s != [] ==> exists i :: 0 <= i < |s| && s[i].id == r - 1
  {
    if s == [] then 1 else MaxId(s) + 1
  }

  /** How the required-field check of create ends. */
  datatype FieldCheck = AllPresent | Missing(field: Field) | Raises

  /** The `for field in required` loop: the first field that is not `in` the payload, in list order. */
  function CheckRequired(v: Value, fields: seq<Field>): (r: FieldCheck)
    ensures r.AllPresent? <==> forall k :: 0 <= k < |fields| ==> Membership(v, fields[k].Name()) == Some(true)
    ensures r.Missing? ==> r.field in fields && Membership(v, r.field.Name()) == Some(false)
    ensures r.Raises? ==> Membership(v, fields[0].Name()).None?
  {
    if fields == [] then AllPresent
    else match Membership(v, fields[0].Name())
      case None => Raises
      case Some(false) => Missing(fields[0])
      case Some(true) =>
        var r := CheckRequired(v, fields[1..]);
        assert forall k :: 1 <= k < |fields| ==> fields[k] == fields[1..][k - 1];
        r
  }

  /** The check names the first field, in list order, that the payload lacks. */
  lemma {:induction false} CheckRequiredNamesFirst(v: Value, fields: seq<Field>, k: nat)
    requires k < |fields| && Membership(v, fields[k].Name()) == Some(false)
    requires forall j :: 0 <= j < k ==> Membership(v, fields[j].Name()) == Some(true)
    ensures CheckRequired(v, fields) == Missing(fields[k])
  {
    if k > 0 {
      CheckRequiredNamesFirst(v, fields[1..], k - 1);
    }
  }

  /** `_create_transaction`: validate, assign the next id, stamp `now`, append. */
  function Create(s: seq<Transaction>, body: RequestBody, now: string): (seq<Transaction>, Response) {
    match body
    case Unreadable => (s, Fault())
    case Malformed => (s, InvalidJson())
    case Parsed(v) =>
      match CheckRequired(v, BusinessFields)
      case Raises => (s, Fault())
      case Missing(f) => (s, Response(400, Failure("Bad Request", Some("Missing field: " + f.Name()))))
      case AllPresent =>
        var kind := Subscript(v, TransactionType.Name());
        var amount := Subscript(v, Amount.Name());
        var sender := Subscript(v, Sender.Name());
        var receiver := Subscript(v, Receiver.Name());
        if kind.None? || amount.None? || sender.None? || receiver.None? then (s, Fault())
        else
          var tx := Transaction(NewId(s), kind.value, amount.value, sender.value, receiver.value, now);
          (s + [tx], Response(201, Notice("Transaction created", tx)))
  }

  /** The record a successful create appends for an object payload. */
  function NewRecord(s: seq<Transaction>, m: map<string, Value>, now: string): Transaction
    requires forall f: Field :: f.Name() in m
  {
    Transaction(NewId(s), m[TransactionType.Name()], m[Amount.Name()], m[Sender.Name()], m[Receiver.Name()], now)
  }

  /**
   * An object payload with all four fields appends exactly one record at the end,
   * built from the payload, the next id and the timestamp; 201 Created.
   */
  lemma CreateAppends(s: seq<Transaction>, m: map<string, Value>, now: string)
    requires forall f: Field :: f.Name() in m
    ensures Create(s, Parsed(Object(m)), now) ==
            (s + [NewRecord(s, m, now)], Response(201, Notice("Transaction created", NewRecord(s, m, now))))
  {
    assert forall k :: 0 <= k < |BusinessFields| ==> Membership(Object(m), BusinessFields[k].Name()) == Some(true);
  }

  /** A payload lacking a field is refused with 400, naming the first missing field, and the store is kept. */
  lemma CreateNamesFirstMissing(s: seq<Transaction>, v: Value, now: string, k: nat)
    requires k < |BusinessFields| && Membership(v, BusinessFields[k].Name()) == Some(false)
    requires forall j :: 0 <= j < k ==> Membership(v, BusinessFields[j].Name()) == Some(true)
    ensures Create(s, Parsed(v), now) ==
            (s, Response(400, Failure("Bad Request", Some("Missing field: " + BusinessFields[k].Name()))))
  {
    CheckRequiredNamesFirst(v, BusinessFields, k);
  }

  /** Create either fails and keeps the store, or appends one record whose id is fresh. */
  lemma CreatePreservesUniqueIds(s: seq<Transaction>, body: RequestBody, now: string)
    requires UniqueIds(s)
    ensures var (s', r) := Create(s, body, now);
            UniqueIds(s') &&
            (r.status == 201 ==> |s'| == |s| + 1 && s'[..|s|] == s && s'[|s|].id == NewId(s)) &&
            (r.status != 201 ==> s' == s)
  {
    var (s', r) := Create(s, body, now);
    if r.status == 201 {
      assert s'[..|s|] == s;
    }
  }

  /** After a create the new record is what a get of the new id returns. */
  lemma GetAfterCreate(s: seq<Transaction>, body: RequestBody, now: string)
    requires Create(s, body, now).1.status == 201 && NewId(s) >= 0
    ensures var s' := Create(s, body, now).0;
            GetOne(s', NewId(s)) == Response(200, Single(s'[|s|]))
  {
    var s' := Create(s, body, now).0;
    assert s'[..|s|] == s;
    LinearSearchFindsFirst(s', NewId(s), |s|);
  }

  // ---------------------------------------------------------------------------
  // Update

  /**
   * The `for field in updateable` loop on the found record: overwrite each field
   * whose name is `in` the payload with `payload[field]`; `None` where either raises.
   */
  function Patch(v: Value, tx: Transaction, fields: seq<Field>): Option<Transaction>
    decreases |fields|
  {
    if fields == [] then Some(tx)
    else
      var name := fields[0].Name();
      match Membership(v, name)
      case None => None
      case Some(false) => Patch(v, tx, fields[1..])
      case Some(true) =>
        match Subscript(v, name)
        case None => None
        case Some(x) => Patch(v, tx.With(fields[0], x), fields[1..])
  }

  /**
   * On an object payload the patch always succeeds: the listed fields that the
   * payload holds take the payload's values, every other field, the id and the
   * timestamp keep theirs, and keys outside the list are ignored.
   */
  lemma {:induction false} PatchObject(m: map<string, Value>, tx: Transaction, fields: seq<Field>)
    ensures Patch(Object(m), tx, fields).Some?
    ensures var r := Patch(Object(m), tx, fields).value;
            r.id == tx.id && r.timestamp == tx.timestamp &&
            forall f :: r.Get(f) == if f in fields && f.Name() in m then m[f.Name()] else tx.Get(f)
    decreases |fields|
  {
    if fields != [] {
      var f0 := fields[0];
      assert forall f :: f in fields <==> f == f0 || f in fields[1..];
      if f0.Name() in m {
        PatchObject(m, tx.With(f0, m[f0.Name()]), fields[1..]);
      } else {
        PatchObject(m, tx, fields[1..]);
      }
    }
  }

  /** A payload that is not an object never alters the record: it raises or leaves it as it was. */
  lemma {:induction false} PatchNonObject(v: Value, tx: Transaction, fields: seq<Field>)
    requires !v.Object?
    ensures Patch(v, tx, fields) == None || Patch(v, tx, fields) == Some(tx)
    decreases |fields|
  {
    if fields != [] && Membership(v, fields[0].Name()) == Some(false) {
      PatchNonObject(v, tx, fields[1..]);
    }
  }

  /** `_update_transaction`: find the record first, then read the body, then patch it in place. */
  function Update(s: seq<Transaction>, id: nat, body: RequestBody): (seq<Transaction>, Response) {
    match FirstIndex(s, id)
    case None => (s, RecordNotFound(id))
    case Some(i) =>
      match body
      case Unreadable => (s, Fault())
      case Malformed => (s, InvalidJson())
      case Parsed(v) =>
        match Patch(v, s[i], BusinessFields)
        case None => (s, Fault())
        case Some(tx) => (s[i := tx], Response(200, Notice("Transaction updated", tx)))
  }

  /** An id no record carries gives 404 whatever the body, and the store is kept. */
  lemma UpdateAbsent(s: seq<Transaction>, id: nat, body: RequestBody)
    requires forall j :: 0 <= j < |s| ==> s[j].id != id
    ensures Update(s, id, body) == (s, RecordNotFound(id))
  {
  }

  /**
   * An object payload updates the first record with the id: only the business fields
   * present in the payload change; its id and timestamp, every other record and the
   * store length stay; 200 with the updated record.
   */
  lemma UpdatePatchesPresentFields(s: seq<Transaction>, id: nat, m: map<string, Value>, i: nat)
    requires i < |s| && s[i].id == id && forall j :: 0 <= j < i ==> s[j].id != id
    ensures var (s', r) := Update(s, id, Parsed(Object(m)));
            && |s'| == |s|
            && (forall j :: 0 <= j < |s| && j != i ==> s'[j] == s[j])
            && s'[i].id == s[i].id && s'[i].timestamp == s[i].timestamp
            && (forall f: Field :: s'[i].Get(f) == if f.Name() in m then m[f.Name()] else s[i].Get(f))
            && r == Response(200, Notice("Transaction updated", s'[i]))
  {
    PatchObject(m, s[i], BusinessFields);
    assert forall f: Field :: f in BusinessFields;
  }

  /** An update never changes the store length nor any id, and changes the store only on 200. */
  lemma UpdateKeepsIds(s: seq<Transaction>, id: nat, body: RequestBody)
    ensures var (s', r) := Update(s, id, body);
            |s'| == |s| && (forall j :: 0 <= j < |s| ==> s'[j].id == s[j].id) &&
            (r.status != 200 ==> s' == s) &&
            (body.Parsed? && !body.value.Object? ==> s' == s)
  {
    match FirstIndex(s, id)
    case None =>
    case Some(i) =>
      if body.Parsed? {
        if body.value.Object? {
          PatchObject(body.value.members, s[i], BusinessFields);
        } else {
          PatchNonObject(body.value, s[i], BusinessFields);
          assert s[i := s[i]] == s;
        }
      }
  }

  // ---------------------------------------------------------------------------
  // Delete

  /** `_delete_transaction`: `pop` the first record with the id. */
  function Remove(s: seq<Transaction>, id: nat): (seq<Transaction>, Response) {
    match FirstIndex(s, id)
    case None => (s, RecordNotFound(id))
    case Some(i) => (s[..i] + s[i + 1..], Response(200, Notice("Transaction deleted", s[i])))
  }

  /**
   * Delete removes exactly the first record with the id and returns it; the others
   * keep their relative order. Without such a record: 404 and the store is kept.
   */
  lemma DeleteRemovesFirst(s: seq<Transaction>, id: nat)
    ensures (forall j :: 0 <= j < |s| ==> s[j].id != id) ==> Remove(s, id) == (s, RecordNotFound(id))
    ensures forall i :: 0 <= i < |s| && s[i].id == id && (forall j :: 0 <= j < i ==> s[j].id != id) ==>
              Remove(s, id) == (s[..i] + s[i + 1..], Response(200, Notice("Transaction deleted", s[i])))
  {
    forall i | 0 <= i < |s| && s[i].id == id && (forall j :: 0 <= j < i ==> s[j].id != id)
      ensures FirstIndex(s, id) == Some(i)
    {
      FirstIndexAt(s, id, i);
    }
  }

  /** With unique ids, once a record is deleted a get of its id answers 404. */
  lemma GetAfterDelete(s: seq<Transaction>, id: nat)
    requires UniqueIds(s) && Remove(s, id).1.status == 200
    ensures GetOne(Remove(s, id).0, id) == RecordNotFound(id)
  {
    var i := FirstIndex(s, id).value;
    var s' := Remove(s, id).0;
    forall j | 0 <= j < |s'| ensures s'[j].id != id {
      if j < i { assert s'[j] == s[j]; } else { assert s'[j] == s[j + 1]; }
    }
    GetFindsFirst(s', id);
  }

  /**
   * Ids are not reserved for good: on the store with ids 1 and 2, deleting 2 and
   * creating another record hands id 2 out again.
   */
  lemma DeletedMaxIdIsReused(a: Transaction, b: Transaction)
    requires a.id == 1 && b.id == 2
    ensures Remove([a, b], 2).1.status == 200
    ensures NewId(Remove([a, b], 2).0) == 2
  {
    FirstIndexAt([a, b], 2, 1);
    assert Remove([a, b], 2).0 == [a];
  }

  /** The largest id need not come back: with ids 1 and 3, deleting 3 makes the next id 2. */
  lemma DeletedMaxIdNotAlwaysReused(a: Transaction, b: Transaction)
    requires a.id == 1 && b.id == 3
    ensures Remove([a, b], 3).1.status == 200
    ensures NewId(Remove([a, b], 3).0) == 2
  {
    FirstIndexAt([a, b], 3, 1);
    assert Remove([a, b], 3).0 == [a];
  }

  /**
   * In general, after deleting the record with the largest id of a store with unique
   * ids, the next id is at most the deleted one (unless the store is left empty), and
   * equal to it exactly when the store held `id - 1` as well, or held only id 1.
   */
  lemma DeletedMaxIdReusedIff(s: seq<Transaction>, id: nat)
    requires UniqueIds(s) && s != [] && MaxId(s) == id
    ensures var (s', r) := Remove(s, id);
            r.status == 200 && (s' != [] ==> NewId(s') <= id) &&
            (NewId(s') == id <==> (|s| == 1 && id == 1) || HoldsId(s, id - 1))
  {
    var i := FirstIndex(s, id).value;
    var s' := s[..i] + s[i + 1..];
    assert Remove(s, id).0 == s';
    RestBelowMax(s, i, id);
    if s' == [] {
      assert |s| == 1 && NewId(s') == 1;
      assert !HoldsId(s, id - 1) by { assert s[0].id == id; }
    } else {
      var m := MaxId(s');
      assert NewId(s') == m + 1 && m < id;
      assert m == id - 1 <==> HoldsId(s', id - 1);
    }
  }

  /** Some record of `s` carries the id. */
  ghost predicate HoldsId(s: seq<Transaction>, id: int) {
    exists j :: 0 <= j < |s| && s[j].id == id
  }

  /** What is left after removing the unique largest id lies below it, and holds `id - 1` iff the store did. */
  lemma RestBelowMax(s: seq<Transaction>, i: nat, id: int)
    requires UniqueIds(s) && i < |s| && s[i].id == id
    requires forall j :: 0 <= j < |s| ==> s[j].id <= id
    ensures var s' := s[..i] + s[i + 1..];
            (forall k :: 0 <= k < |s'| ==> s'[k].id < id) && (HoldsId(s, id - 1) <==> HoldsId(s', id - 1))
  {
    var s' := s[..i] + s[i + 1..];
    forall k | 0 <= k < |s'| ensures s'[k] == s[if k < i then k else k + 1] && s'[k].id < id {
      var k' := if k < i then k else k + 1;
      assert s'[k] == s[k'];
      if k' < i { assert s[k'].id != s[i].id; } else { assert s[i].id != s[k'].id; }
    }
    if HoldsId(s, id - 1) {
      var j :| 0 <= j < |s| && s[j].id == id - 1;
      var k := if j < i then j else j - 1;
      assert s'[k] == s[j];
    }
  }

  // ---------------------------------------------------------------------------
  // One request

  /** One request: authenticate, route on method and path, then run the operation. */
  function Handle(s: seq<Transaction>, req: Request, decode: Decoder, now: string): (seq<Transaction>, Response) {
    match Authenticate(req.authorization, decode)
    case Denied(reason) => (s, Response(401, Failure("Unauthorized", Some(reason))))
    case Granted =>
      var item := MatchItem(req.path);
      match req.verb
      case Get =>
        if item.Some? then (s, GetOne(s, item.value))
        else if req.path == CollectionPath then (s, ListAll(s))
        else (s, RouteNotFound())
      case Post =>
        if req.path == CollectionPath then Create(s, req.body, now) else (s, RouteNotFound())
      case Put =>
        if item.Some? then Update(s, item.value, req.body) else (s, RouteNotFound())
      case Delete =>
        if item.Some? then Remove(s, item.value) else (s, RouteNotFound())
  }

  /** Authentication comes first: every refused request gets 401 and changes nothing, whatever its route. */
  lemma UnauthenticatedChangesNothing(s: seq<Transaction>, req: Request, decode: Decoder, now: string)
    requires Authenticate(req.authorization, decode).Denied?
    ensures Handle(s, req, decode, now).0 == s
    ensures Handle(s, req, decode, now).1 ==
            Response(401, Failure("Unauthorized", Some(Authenticate(req.authorization, decode).reason)))
  {
  }

  /** Every combination of verb and path outside the route table is 404 Not Found and changes nothing. */
  lemma UnroutedIsNotFound(s: seq<Transaction>, req: Request, decode: Decoder, now: string)
    requires Authenticate(req.authorization, decode) == Granted
    requires match req.verb
             case Get => MatchItem(req.path).None? && req.path != CollectionPath
             case Post => req.path != CollectionPath
             case Put => MatchItem(req.path).None?
             case Delete => MatchItem(req.path).None?
    ensures Handle(s, req, decode, now) == (s, RouteNotFound())
  {
  }

  /**
   * The route table, for an authenticated request: an item path goes to get, update or delete
   * of its id, and the collection path to list or create.
   */
  lemma RouteTable(s: seq<Transaction>, req: Request, decode: Decoder, now: string, d: string)
    requires Authenticate(req.authorization, decode) == Granted
    ensures req.path == ItemPrefix + d && |d| > 0 && AllDigits(d) ==>
              && (req.verb == Get ==> Handle(s, req, decode, now) == (s, GetOne(s, DecimalValue(d))))
              && (req.verb == Put ==> Handle(s, req, decode, now) == Update(s, DecimalValue(d), req.body))
              && (req.verb == Delete ==> Handle(s, req, decode, now) == Remove(s, DecimalValue(d)))
              && (req.verb == Post ==> Handle(s, req, decode, now) == (s, RouteNotFound()))
    ensures req.path == CollectionPath ==>
              && (req.verb == Get ==> Handle(s, req, decode, now) == (s, ListAll(s)))
              && (req.verb == Post ==> Handle(s, req, decode, now) == Create(s, req.body, now))
              && (req.verb in {Put, Delete} ==> Handle(s, req, decode, now) == (s, RouteNotFound()))
  {
    if req.path == ItemPrefix + d && |d| > 0 && AllDigits(d) {
      ItemRouteDigits(d);
      assert req.path != CollectionPath by {
        assert |req.path| > |CollectionPath|;
      }
    }
    assert MatchItem(CollectionPath).None? by {
      assert !IsPrefix(ItemPrefix, CollectionPath);
    }
  }

  /** A response other than 200 or 201 never comes with a change to the store. */
  lemma ErrorsChangeNothing(s: seq<Transaction>, req: Request, decode: Decoder, now: string)
    ensures var (s', r) := Handle(s, req, decode, now);
            r.status != 200 && r.status != 201 ==> s' == s
  {
    if Authenticate(req.authorization, decode) == Granted && MatchItem(req.path).Some? {
      if req.verb == Put {
        UpdateKeepsIds(s, MatchItem(req.path).value, req.body);
      }
    }
  }

  /** No request can make two records share an id. */
  lemma HandlePreservesUniqueIds(s: seq<Transaction>, req: Request, decode: Decoder, now: string)
    requires UniqueIds(s)
    ensures UniqueIds(Handle(s, req, decode, now).0)
  {
    if Authenticate(req.authorization, decode) == Granted {
      var item := MatchItem(req.path);
      match req.verb
      case Get =>
      case Post => CreatePreservesUniqueIds(s, req.body, now);
      case Put =>
        if item.Some? {
          UpdateKeepsIds(s, item.value, req.body);
        }
      case Delete =>
        if item.Some? && FirstIndex(s, item.value).Some? {
          var i := FirstIndex(s, item.value).value;
          var s' := s[..i] + s[i + 1..];
          forall a, b | 0 <= a < b < |s'| ensures s'[a].id != s'[b].id {
            var a' := if a < i then a else a + 1;
            var b' := if b < i then b else b + 1;
            assert s'[a] == s[a'] && s'[b] == s[b'];
          }
        }
    }
  }

  // ---------------------------------------------------------------------------
  // Worked examples: one request on a small store

  /** POST of a complete payload on an empty store creates id 1 with the request's timestamp. */
  lemma ScenarioCreateOnEmptyStore(decode: Decoder, header: string, now: string, m: map<string, Value>)
    requires Authenticate(Some(header), decode) == Granted
    requires m == map["transaction_type" := Str("payment"), "amount" := Int(500),
                      "sender" := Str("You"), "receiver" := Str("Shop")]
    ensures var (s', r) := Handle([], Request(Post, CollectionPath, Some(header), Parsed(Object(m))), decode, now);
            r.status == 201 && r.content.data.id == 1 && r.content.data.timestamp == now && |s'| == 1
  {
    CreateAppends([], m, now);
  }

  /** GET of an id no record carries: 404 with the message naming the id. */
  lemma ScenarioGetMissing(s: seq<Transaction>, decode: Decoder, header: string, now: string)
    requires Authenticate(Some(header), decode) == Granted
    requires forall j :: 0 <= j < |s| ==> s[j].id != 999
    ensures Handle(s, Request(Get, "/transactions/999", Some(header), Unreadable), decode, now) ==
            (s, Response(404, Failure("Not Found", Some("Transaction 999 not found"))))
  {
    ItemRouteRoundTrip(999);
    Texts999();
    GetFindsFirst(s, 999);
  }

  lemma Texts999()
    ensures ItemPrefix + DecimalString(999) == "/transactions/999"
    ensures "Transaction " + DecimalString(999) + " not found" == "Transaction 999 not found"
  {
    assert DecimalString(9) == "9" && DecimalString(99) == "99" && DecimalString(999) == "999";
  }

  /** POST of `{"amount": 10}`: 400 naming `transaction_type`, the first required field. */
  lemma ScenarioCreateMissingFields(s: seq<Transaction>, decode: Decoder, header: string, now: string)
    requires Authenticate(Some(header), decode) == Granted
    ensures Handle(s, Request(Post, CollectionPath, Some(header), Parsed(Object(map["amount" := Int(10)]))), decode, now) ==
            (s, Response(400, Failure("Bad Request", Some("Missing field: transaction_type"))))
  {
    var body := Parsed(Object(map["amount" := Int(10)]));
    RouteTable(s, Request(Post, CollectionPath, Some(header), body), decode, now, "");
    CreateNamesFirstMissing(s, Object(map["amount" := Int(10)]), now, 0);
    MissingTypeText();
  }

  lemma MissingTypeText()
    ensures "Missing field: " + BusinessFields[0].Name() == "Missing field: transaction_type"
  {
  }

  /** PUT of `{"amount": 999}` on record 1: 200, the amount is 999 and nothing else of it changes. */
  lemma ScenarioUpdateAmount(s: seq<Transaction>, decode: Decoder, header: string, now: string)
    requires Authenticate(Some(header), decode) == Granted
    requires |s| > 0 && s[0].id == 1
    ensures var (s', r) := Handle(s, Request(Put, "/transactions/1", Some(header), Parsed(Object(map["amount" := Int(999)]))), decode, now);
            r.status == 200 && s'[0] == s[0].(amount := Int(999)) && s'[1..] == s[1..]
  {
    ItemRouteRoundTrip(1);
    assert ItemPrefix + DecimalString(1) == "/transactions/1";
    var m := map["amount" := Int(999)];
    UpdatePatchesPresentFields(s, 1, m, 0);
    var s' := Update(s, 1, Parsed(Object(m))).0;
    assert s'[0].transactionType == s'[0].Get(TransactionType) == s[0].transactionType;
    assert s'[0].amount == s'[0].Get(Amount) == Int(999);
    assert s'[0].sender == s'[0].Get(Sender) == s[0].sender;
    assert s'[0].receiver == s'[0].Get(Receiver) == s[0].receiver;
  }
}
