# MoMo SMS transaction ledger — a verified Dafny model

This project models the three sequential pieces of the MoMo SMS financial-insights platform and proves what they promise:

- **The transaction REST API** (`api/app.py`). The module-level `TRANSACTIONS` list is the store. Every request:
  - passes the Basic authentication gate, which compares against the fixed pair `admin` / `admin123`;
  - is routed on method and path;
  - runs one of five store operations: list, get, create, update or delete.

  Module `Api` gives each operation as a function from the old store to the new store and a response, with every error path (401, 404, 400, 500). Class `Server.TransactionHandler` holds the list as a field, and its methods change it the way the handler does:
  - scan loops with early return or `break`;
  - `append`;
  - field assignment on the found record;
  - `pop(i)`.

  Each method is proved to produce exactly the store and response that `Api` prescribes. The response is a datatype of status and body shape, not JSON text.
- **The lookup utilities** (`dsa/search.py`), in module `Search`:
  - linear search by id;
  - the id-keyed dictionary;
  - the dictionary get.

  The main lemma: with unique ids the two lookups agree for every id. With a duplicate id they differ, because the scan finds the first record and the dictionary keeps the last.
- **The SMS-to-record ETL step** (`etl/parse_xml.py`), in module `Etl`:
  - the ordered first-match classifier;
  - the first `<digits[,digits]*> RWF` amount, modelled exactly as the regular expression's leftmost match;
  - the sender and receiver tables;
  - the filtering loop of `parse_xml`, which numbers accepted messages 1, 2, …

Shared pieces:

| module | contents |
|---|---|
| `Wrappers` | `Option` |
| `Text` | Python's `str` operations as the code uses them: `in`, ASCII `lower`, `isspace`, `strip`, `split(':', 1)`, `int`/`str` of decimals |
| `Json` | parsed JSON values, and `key in payload` / `payload[key]` with Python's semantics for non-object payloads |
| `Ledger` | the transaction record and the first-index-by-id scan |

Two behaviours of the code are easy to miss, and the model keeps both:

- **Id reuse.** A new id is `max(ids, default=0) + 1` (api/app.py:137), so deleting the record with the largest id can free that id for the next create. `Api.DeletedMaxIdReusedIff` says exactly when: the store also held that id minus one, or held only the record with id 1. The model proves that a new id is above every *live* id, not that ids are never reused.
- **Ids of any sign.** The loaded store may hold any integers, and on a store of only negative ids `max(...) + 1` is below 1. The model keeps ids as unbounded `int`.

## Model

| member | source | states |
|---|---|---|
| Text.Strip | etl/parse_xml.py:22 | no whitespace is left at either end, and the result is empty exactly when the input is whitespace only (`not body.strip()`) |
| Text.StripKeepsMiddle | etl/parse_xml.py:82 | what `strip` keeps is a contiguous piece of the input, and everything cut off on either side of it is whitespace |
| Text.Lower | etl/parse_xml.py:62 | the definition of `body.lower()` on ASCII letters; its property is `Text.LowerKeepsContains` |
| Text.LowerKeepsContains | etl/parse_xml.py:62 | if a needle is in the text, the lower-cased needle is in the lower-cased text |
| Text.SplitOnce | api/app.py:100 | the split fails exactly when there is no `:`; otherwise the text is the part before, `:`, and the part after, and the part before holds no `:` |
| Text.SplitOnceUnique | api/app.py:100 | the split is unique: any `a + ":" + b` with no `:` in `a` splits into exactly `a` and `b` |
| Text.DecimalString | api/app.py:121 | `str(id)` is non-empty, all digits, and has no leading zero |
| Text.DecimalRoundTrip | api/app.py:38-40 | reading back a rendered id gives the id |
| Json.Membership | api/app.py:133 | the definition of `field in payload` (also line 178): key membership for an object, element equality for a list, substring for a string, a raise otherwise; its properties are `Api.CheckRequired` and `Api.PatchNonObject` |
| Json.Subscript | api/app.py:142-145 | the definition of `payload[field]` (also line 179): the member of an object, a raise otherwise; its properties are `Api.CreateAppends` and `Api.PatchObject` |
| Ledger.Transaction.With | api/app.py:179 | assigning one field changes that field only; the id and the timestamp are kept |
| Ledger.FirstIndex | api/app.py:162-165 | the scan finds a record with the id and no earlier one, and finds nothing exactly when no record has the id |
| Ledger.FirstIndexAt | api/app.py:192-193 | a record with the id and no earlier match is the one the scan finds |
| Search.LinearSearch | dsa/search.py:27-35 | the result is None exactly when no record has the target id; otherwise it is a record of the list with that id |
| Search.LinearSearchFindsFirst | dsa/search.py:32-34 | the result is the first record in list order with the target id |
| Search.CreateTransactionDict | dsa/search.py:46-48 | the key set is the set of ids in the list, and each key maps to a record of the list that carries it |
| Search.DictHoldsLast | dsa/search.py:48 | a key maps to the last record carrying it, because later entries overwrite earlier ones |
| Search.DictionaryLookup | dsa/search.py:38-43 | the definition of `transactions_dict.get(target_id)`; its property is `Search.LookupAgreesWithLinearSearch` |
| Search.LookupAgreesWithLinearSearch | dsa/search.py:27-48 | with unique ids the dictionary lookup equals linear search, for every id |
| Search.DuplicateIdsDisagree | dsa/search.py:27-48 | with a duplicated id, linear search returns the first record and the dictionary the second |
| Api.AuthGrantedIff | api/app.py:89-103 | access is granted exactly when the header starts with `Basic ` and the rest decodes to `admin:admin123` |
| Api.AuthDeniedReasons | api/app.py:91-109 | "Missing Authorization header" iff the header does not start with `Basic `; "Invalid Authorization header" iff decoding fails or the text has no `:`; "Invalid credentials" iff the text has a `:` but is not `admin:admin123` |
| Api.Authenticate | api/app.py:89-109 | the definition of `_check_auth`; its properties are `Api.AuthGrantedIff` and `Api.AuthDeniedReasons` |
| Api.MatchItem | api/app.py:38-40 | the definition of the item route and `int()` of its digits; its properties are `Api.ItemRouteRoundTrip` and `Api.RoutePatternsDisjoint` |
| Api.Handle | api/app.py:30-87 | the definition of the four verb handlers as one step on the store; its properties are `Api.RouteTable`, `Api.UnroutedIsNotFound`, `Api.UnauthenticatedChangesNothing`, `Api.ErrorsChangeNothing` and `Api.HandlePreservesUniqueIds` |
| Api.ListAll | api/app.py:111-113 | the definition of `_get_all_transactions`; its property is `Api.ListedRecordsAreGettable` |
| Api.GetOne | api/app.py:115-121 | the definition of `_get_transaction`; its property is `Api.GetFindsFirst` |
| Api.Create | api/app.py:123-155 | the definition of `_create_transaction`; its properties are `Api.CreateAppends`, `Api.CreateNamesFirstMissing`, `Api.CreatePreservesUniqueIds` and `Api.GetAfterCreate` |
| Api.Patch | api/app.py:176-179 | the definition of the field-assignment loop; its properties are `Api.PatchObject` and `Api.PatchNonObject` |
| Api.Update | api/app.py:157-186 | the definition of `_update_transaction`; its properties are `Api.UpdateAbsent`, `Api.UpdatePatchesPresentFields` and `Api.UpdateKeepsIds` |
| Api.Remove | api/app.py:188-197 | the definition of `_delete_transaction`; its properties are `Api.DeleteRemovesFirst`, `Api.GetAfterDelete` and `Api.DeletedMaxIdReusedIff` |
| Api.ItemRouteRoundTrip | api/app.py:38-40 | the path `/transactions/<str(n)>` routes to id `n` |
| Api.ItemRouteDigits | api/app.py:38-40 | any non-empty digit run after `/transactions/` routes to the value of those digits |
| Api.LeadingZerosRoute | api/app.py:38-40 | `/transactions/007` routes to id 7 |
| Api.RoutePatternsDisjoint | api/app.py:37-45 | no path matches both the item pattern and the collection path |
| Api.RouteTable | api/app.py:30-87 | after authentication: a path `/transactions/<digits>` (leading zeros included) goes to get, update or delete of the id `int()` reads from the digits, and POST on it is 404; the collection path goes to list or create, and PUT or DELETE on it is 404 |
| Api.UnroutedIsNotFound | api/app.py:30-87 | every unrouted verb and path combination gives 404 "Not Found" and keeps the store |
| Api.UnauthenticatedChangesNothing | api/app.py:30-33 | a refused request gets 401 with the gate's reason and keeps the store, whatever its route |
| Api.GetFindsFirst | api/app.py:115-121 | get answers 200 with the first record with the id; it answers 404 "Transaction {id} not found" exactly when no record has it |
| Api.ListedRecordsAreGettable | api/app.py:111-121 | the listing's count is the store length and its data is the store; with unique ids every listed record with a non-negative id is what a get of its id returns |
| Api.MaxId | api/app.py:137 | the maximum is at least every id and is the id of some record |
| Api.NewId | api/app.py:137 | the new id is above every live id; it is 1 on an empty store and otherwise one more than an existing id |
| Api.CheckRequired | api/app.py:131-134 | all four fields pass exactly when each is `in` the payload; a reported field is not `in` it; a raise comes from a payload that is not a container |
| Api.CheckRequiredNamesFirst | api/app.py:131-134 | the check reports the first field in list order that the payload lacks |
| Api.CreateNamesFirstMissing | api/app.py:131-134 | a payload lacking a field gets 400 "Missing field: <first missing>" and the store is kept |
| Api.CreateAppends | api/app.py:136-150 | an object payload with all four fields appends exactly one record at the end, built from the payload, the new id and the timestamp; 201 "Transaction created" |
| Api.CreatePreservesUniqueIds | api/app.py:123-155 | create either keeps the store (any status but 201) or appends one record with the new id; unique ids stay unique |
| Api.GetAfterCreate | api/app.py:137-150 | after a create whose new id is non-negative, a get of the new id returns the new record |
| Api.PatchObject | api/app.py:176-179 | on an object payload the patch succeeds: listed fields present in the payload take its values, and every other field, the id and the timestamp are kept |
| Api.PatchNonObject | api/app.py:176-186 | a payload that is not an object raises or leaves the record as it was, never half-updated |
| Api.UpdateAbsent | api/app.py:161-168 | an absent id gives 404 "Transaction {id} not found" whatever the body, and the store is kept |
| Api.UpdatePatchesPresentFields | api/app.py:157-181 | an object payload changes only the present business fields of the first record with the id; its id and timestamp, all other records and the length are kept; 200 with the record |
| Api.UpdateKeepsIds | api/app.py:157-186 | an update never changes the length or any id, changes the store only on 200, and never on a payload that is not an object |
| Api.DeleteRemovesFirst | api/app.py:188-197 | delete removes exactly the first record with the id and returns it, the rest in order; an absent id gives 404 and keeps the store |
| Api.GetAfterDelete | api/app.py:188-197 | with unique ids, after a delete a get of that id gives 404 |
| Api.DeletedMaxIdIsReused | api/app.py:137 | on the store with ids 1 and 2, deleting id 2 makes the next new id 2 again |
| Api.DeletedMaxIdNotAlwaysReused | api/app.py:137 | on the store with ids 1 and 3, deleting id 3 makes the next new id 2, not 3 |
| Api.DeletedMaxIdReusedIff | api/app.py:137 | with unique ids, deleting the record with the largest id succeeds; the next id is then at most that id (unless the store is left empty), and equal to it exactly when the store also held that id minus one, or held only id 1 |
| Api.RestBelowMax | api/app.py:188-197 | with unique ids, after the record with the largest id is removed every remaining id is below it, and `id - 1` remains exactly when the store held it |
| Api.ErrorsChangeNothing | api/app.py:123-197 | a response other than 200 or 201 never comes with a change to the store |
| Api.HandlePreservesUniqueIds | api/app.py:30-197 | no request can make two records share an id |
| Api.ScenarioCreateOnEmptyStore | api/app.py:137-150 | POST of a complete payload on an empty store gives 201 with id 1, the request's timestamp, one record |
| Api.ScenarioGetMissing | api/app.py:115-121 | GET `/transactions/999` with no such record gives 404 "Transaction 999 not found" |
| Api.ScenarioCreateMissingFields | api/app.py:131-134 | POST of `{"amount": 10}` gives 400 "Missing field: transaction_type" and keeps the store |
| Api.ScenarioUpdateAmount | api/app.py:157-181 | PUT of `{"amount": 999}` on record 1 gives 200, and only that record's amount changes |
| Server.TransactionHandler.constructor | api/app.py:19-20 | the handler starts on the given store |
| Server.TransactionHandler.GetAllTransactions | api/app.py:111-113 | 200 with the count and the whole list, store unchanged |
| Server.TransactionHandler.GetTransaction | api/app.py:115-121 | the scan loop answers as `Api.GetOne`: the first record with the id, else 404 |
| Server.TransactionHandler.CreateTransaction | api/app.py:123-155 | the new list and the response are those of `Api.Create` on the old list |
| Server.TransactionHandler.UpdateTransaction | api/app.py:157-186 | the find loop, then the in-place patch loop, give the list and the response of `Api.Update` |
| Server.TransactionHandler.DeleteTransaction | api/app.py:188-197 | the enumerate scan and `pop` give the list and the response of `Api.Remove` |
| Server.TransactionHandler.DoGet | api/app.py:30-47 | the GET handler answers as `Api.Handle`, store unchanged |
| Server.TransactionHandler.DoPost | api/app.py:49-59 | the POST handler's new list and response are those of `Api.Handle` |
| Server.TransactionHandler.DoPut | api/app.py:61-73 | the PUT handler's new list and response are those of `Api.Handle` |
| Server.TransactionHandler.DoDelete | api/app.py:75-87 | the DELETE handler's new list and response are those of `Api.Handle` |
| Etl.GetTransactionType | etl/parse_xml.py:60-75 | the result's rule matches, and no earlier rule does; unknown only when none matches; the name is one of the seven of the vocabulary |
| Etl.AnyCasingOfReceivedIsReceive | etl/parse_xml.py:62-63 | a body containing "received" in any casing classifies as receive |
| Etl.TransferredTestIsCaseSensitive | etl/parse_xml.py:64 | an upper-case "TRANSFERRED" matches no rule |
| Etl.NumberEnd | etl/parse_xml.py:54 | the longest `\d+(?:,\d+)*` from a digit is a number group that cannot be extended |
| Etl.SpaceRunDecidesRwf | etl/parse_xml.py:54 | `\s*RWF` follows a position exactly when `RWF` follows its whitespace run |
| Etl.MatchEndIsNumberEnd | etl/parse_xml.py:54 | wherever the pattern matches, its group is the longest number there, so backtracking never finds another |
| Etl.FirstAmountFrom | etl/parse_xml.py:54-55 | a reported match lies in range and its group is a number group |
| Etl.FirstAmountFromCorrect | etl/parse_xml.py:54-55 | the scan reports the leftmost match and its only possible group, and reports none exactly when nothing matches |
| Etl.ExtractAmount | etl/parse_xml.py:52-57 | the definition of `extract_amount`; its properties are `Etl.ExtractAmountSpec` and `Etl.CommaGroupedAmount` |
| Etl.RemoveCommas | etl/parse_xml.py:56 | `replace(',', '')` leaves no comma, returns a text without commas unchanged, and leaves only digits when given digits and commas |
| Etl.RemoveCommasDropsOnlyCommas | etl/parse_xml.py:56 | each comma is replaced by nothing: the result holds every other character of the input exactly as often, and no comma |
| Etl.RemoveCommasConcat | etl/parse_xml.py:56 | removing commas from a concatenation is removing them from each part, so the other characters keep their order |
| Etl.ExtractAmountSpec | etl/parse_xml.py:52-57 | with no match the amount is 0; otherwise it is the value of the leftmost match's group without commas |
| Etl.CommaGroupedAmount | etl/parse_xml.py:56 | `1,500 RWF` reads as 1500 |
| Etl.ExtractSender | etl/parse_xml.py:78-86 | the definition of `extract_sender`; its properties are `Etl.AccountHolderIsAParty`, `Etl.PartiesReadFromTextOnlyWhenNamed` and `Etl.CapturedNamesAreStripped` |
| Etl.ExtractReceiver | etl/parse_xml.py:89-102 | the definition of `extract_receiver`; its properties are `Etl.AccountHolderIsAParty`, `Etl.PartiesReadFromTextOnlyWhenNamed` and `Etl.CapturedNamesAreStripped` |
| Etl.AccountHolderIsAParty | etl/parse_xml.py:78-102 | for every type the sender is "You" or the receiver is "You" or "Account Holder" |
| Etl.PartiesReadFromTextOnlyWhenNamed | etl/parse_xml.py:78-102 | the text matters only for a receive's sender and a transfer's or payment's receiver; otherwise sender is "Bank" or "You" and receiver "Account Holder", "You" or "Unknown" |
| Etl.CapturedNamesAreStripped | etl/parse_xml.py:82 | the sender or receiver name taken from a capture (or the fallback "Unknown") has no whitespace at either end |
| Etl.MakeRecord | etl/parse_xml.py:31-45 | the definition of the record built from one accepted message; its properties are `Etl.ExtractedIdsAndAmounts` and `Etl.ExtractedNumbersKept` |
| Etl.Emits | etl/parse_xml.py:22-37 | the definition of the four tests a message must pass (not an OTP, not blank, from M-Money, a positive amount); its properties are `Etl.SkippedMessagesEmitNothing` and `Etl.ExtractedIdsAndAmounts` |
| Etl.Extracted | etl/parse_xml.py:15-47 | the definition of the loop's output; its properties are `Etl.ExtractedNumbersKept`, `Etl.ExtractedIdsAndAmounts` and `Etl.ExtractedIdsUnique` |
| Etl.ParseXml | etl/parse_xml.py:10-49 | the loop's output is the numbered list of records of the accepted messages |
| Etl.ExtractedNumbersKept | etl/parse_xml.py:15-47 | the output is the accepted messages in input order, record `i` carrying id `i + 1` |
| Etl.ExtractedIdsAndAmounts | etl/parse_xml.py:37-47 | ids run 1, 2, …, n in output order, and every amount is a positive integer |
| Etl.ExtractedIdsUnique | etl/parse_xml.py:39-47 | the records written have unique ids |
| Etl.SkippedMessagesEmitNothing | etl/parse_xml.py:22-29 | a message with "one-time password", an empty or whitespace-only body, or an address other than "M-Money" adds no record |

## Left out

- HTTP plumbing is not modelled: `_send_json`, `log_message`, `run_server` and the `__main__` block. A response is its status and body shape.
- `load_transactions` (file I/O) is not modelled. The initial store is any sequence; lemmas that need unique ids require them.
- `base64.b64decode` followed by `.decode('utf-8')` is the `Decoder` parameter, a partial function.
- `json.loads` is not modelled; the request body arrives as `RequestBody`. This covers a non-integer `Content-Length` or bytes that are not UTF-8 (500), text that is not JSON (400 "Invalid JSON"), and any parsed JSON value.
- `datetime.now().isoformat()` is the `now` parameter, and `urlparse` is taken as done: the path arrives as a string.
- The text of the 500 message (`str(e)` of whatever Python raised) is not modelled; a 500 is `ServerFault`.
- JSON numbers are `int` or `real`. Float text formatting and a loaded record's extra JSON keys are not modelled.
- Records in the store are assumed to carry an integer `id`. A loaded record without one would make the scans raise.
- The model proves no reuse-free id scheme, because the code has none (see `Api.DeletedMaxIdReusedIff`).
- Api.MatchItem: reads a digit run of any length. Python 3.11 and later refuse `int()` of more than 4300 digits (api/app.py:40, 70 and 84) with a `ValueError` that nothing catches, so the server closes the connection without a response; the model answers 404 or 200 instead. No store change is affected, since nothing has been changed at that point.
- Etl.ExtractAmount: reads a number group of any length. Python 3.11 and later refuse `int()` of more than 4300 digits (etl/parse_xml.py:56) with a `ValueError` that neither `parse_xml` nor its caller catches, so the ETL run stops and writes no output; the model returns the number and goes on.
- HTTP verbs other than the four handled ones are not modelled; `http.server` answers those with 501 by itself.
- Concurrency is not modelled: `HTTPServer` serves one request at a time.
- The aliasing of the record dict between the store and the response body is not modelled; responses hold values.
- The route pattern and the amount pattern are modelled on ASCII digits only. Unicode digits in `\d` are not modelled.
- Python's `$` also matches before a final newline, so a path ending in a newline can still match the route; this quirk is not modelled.
- `str.lower()` is modelled on ASCII letters only. Unicode case folding is not modelled.
- The name captures of `extract_sender` and `extract_receiver` are the `NameSearch` parameter: the three regular expressions, each returning a group or nothing. The model keeps the code's `.strip()` and its "Unknown" fallback.
- `convert_timestamp` is the `TimestampConversion` parameter.
- `ET.parse` and the XML tree are not modelled: messages arrive as `(body, date, address)` with each attribute possibly absent.
- `save_to_json`, `etl/run.py` and `benchmark_search` are not modelled, nor `dsa/search.py`'s `load_transactions` and `__main__`. These are I/O, timing and printing.
