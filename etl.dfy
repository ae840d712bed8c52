/**
 * The SMS-to-transaction step: classify a message body by an ordered chain of
 * substring rules, read the first `<amount> RWF`, pick sender and receiver by type,
 * and number the accepted messages 1, 2, ... in input order.
 * Messages arrive already decoded from the XML as (body, date, address).
 */
module Etl {
  import opened Wrappers
  import opened Text
  import opened Json
  import opened Ledger

  // ---------------------------------------------------------------------------
  // Classification

  datatype TxType = Receive | Transfer | Payment | Deposit | Withdrawal | Airtime | Unknown {

    /** The string stored as `transaction_type`. */
    function Name(): string {
      match this
      case Receive => "receive"
      case Transfer => "transfer"
      case Payment => "payment"
      case Deposit => "deposit"
      case Withdrawal => "withdrawal"
      case Airtime => "airtime"
      case Unknown => "unknown"
    }

    /** The position of the type's rule in the chain; `Unknown` is the final fallback. */
    function Rank(): nat {
      match this
      case Receive => 0
      case Transfer => 1
      case Payment => 2
      case Deposit => 3
      case Withdrawal => 4
      case Airtime => 5
      case Unknown => 6
    }
  }

  const TypeVocabulary: set<string> :=
    {"receive", "transfer", "payment", "deposit", "withdrawal", "airtime", "unknown"}

  /** The test of the rule that yields type `t`; the fallback `Unknown` has none. */
  predicate RuleMatches(t: TxType, body: string) {
    match t
    case Receive => Contains(Lower(body), "received")
    case Transfer => Contains(body, "*165*S*") || Contains(body, "transferred")
    case Payment => Contains(Lower(body), "payment") || Contains(body, "TxId:")
    case Deposit => Contains(body, "*113*R*") || Contains(Lower(body), "deposit")
    case Withdrawal => Contains(Lower(body), "withdrawn")
    case Airtime => Contains(body, "*162*") || Contains(body, "Airtime")
    case Unknown => false
  }

  /**
   * `get_transaction_type`: the first rule of the chain that matches wins;
   * `Unknown` only when none does. The name is always one of the seven of the vocabulary.
   */
  function GetTransactionType(body: string): (r: TxType)
    ensures r != Unknown ==> RuleMatches(r, body)
    ensures forall t: TxType :: t.Rank() < r.Rank() ==> !RuleMatches(t, body)
    ensures r.Name() in TypeVocabulary
  {
    var lower := Lower(body);
    if Contains(lower, "received") then Receive
    else if Contains(body, "*165*S*") || Contains(body, "transferred") then Transfer
    else if Contains(lower, "payment") || Contains(body, "TxId:") then Payment
    else if Contains(body, "*113*R*") || Contains(lower, "deposit") then Deposit
    else if Contains(lower, "withdrawn") then Withdrawal
    else if Contains(body, "*162*") || Contains(body, "Airtime") then Airtime
    else Unknown
  }

  /** The "received" test ignores case: a body holding "received" in any casing is a receive. */
  lemma AnyCasingOfReceivedIsReceive(body: string, word: string)
    requires Lower(word) == "received" && Contains(body, word)
    ensures GetTransactionType(body) == Receive
  {
    LowerKeepsContains(body, word);
  }

  /** The "transferred" test is case-sensitive: an upper-case body matches no rule at all. */
  lemma TransferredTestIsCaseSensitive()
    ensures GetTransactionType("TRANSFERRED") == Unknown
  {
    UpperTransferredLowered();
    LowerTransferredMatchesNoWord();
    UpperTransferredMatchesNoWord();
  }

  lemma LowerTransferredMatchesNoWord()
    ensures !Contains("transferred", "received") && !Contains("transferred", "payment")
    ensures !Contains("transferred", "deposit") && !Contains("transferred", "withdrawn")
  {
    AbsentCharNotContained("transferred", "received", 'v');
    AbsentCharNotContained("transferred", "payment", 'p');
    AbsentCharNotContained("transferred", "deposit", 'p');
    AbsentCharNotContained("transferred", "withdrawn", 'w');
  }

  lemma UpperTransferredMatchesNoWord()
    ensures !Contains("TRANSFERRED", "*165*S*") && !Contains("TRANSFERRED", "transferred")
    ensures !Contains("TRANSFERRED", "TxId:") && !Contains("TRANSFERRED", "*113*R*")
    ensures !Contains("TRANSFERRED", "*162*") && !Contains("TRANSFERRED", "Airtime")
  {
    AbsentCharNotContained("TRANSFERRED", "*165*S*", '*');
    AbsentCharNotContained("TRANSFERRED", "transferred", 't');
    AbsentCharNotContained("TRANSFERRED", "TxId:", ':');
    AbsentCharNotContained("TRANSFERRED", "*113*R*", '*');
    AbsentCharNotContained("TRANSFERRED", "*162*", '*');
    AbsentCharNotContained("TRANSFERRED", "Airtime", 'i');
  }

  lemma UpperTransferredLowered()
    ensures Lower("TRANSFERRED") == "transferred"
  {
    var up, low := "TRANSFERRED", "transferred";
    forall i | 0 <= i < |up| ensures LowerChar(up[i]) == low[i] {
      assert 'A' <= up[i] <= 'Z' && low[i] as int == up[i] as int + 32;
    }
  }

  // ---------------------------------------------------------------------------
  // Amount: the first match of `(\d+(?:,\d+)*)\s*RWF`

  /** Character `j` of `s` may stand in a number group that ends at `end`: a digit, or a comma before a digit. */
  predicate InGroup(s: string, j: nat, end: nat)
    requires j < end <= |s|
  {
    IsDigit(s[j]) || (s[j] == ',' && j + 1 < end && IsDigit(s[j + 1]))
  }

  /** A number group that has reached position `e` can take in `s[e]`. */
  predicate GoesOn(s: string, e: nat)
    requires e < |s|
  {
    InGroup(s, e, |s|)
  }

  /** `\d+(?:,\d+)*`: digit runs separated by single commas. */
  predicate IsNumberGroup(t: string) {
    |t| > 0 && IsDigit(t[0]) && IsDigit(t[|t| - 1]) &&
    forall i :: 0 <= i < |t| ==> InGroup(t, i, |t|)
  }

  /** `\s*RWF` matches from position `q`. */
  ghost predicate SpaceThenRwf(s: string, q: nat)
    requires q <= |s|
  {
    exists k :: q <= k <= |s| && AllSpace(s[q..k]) && IsPrefix("RWF", s[k..])
  }

  /** The whole pattern matches at `p`, with the captured group `s[p..q]`. */
  ghost predicate AmountMatchAt(s: string, p: nat, q: nat) {
    p < q <= |s| && IsNumberGroup(s[p..q]) && SpaceThenRwf(s, q)
  }

  /** The end of the longest `\d+(?:,\d+)*` that starts at the digit `s[i]`. */
  function NumberEnd(s: string, i: nat): (e: nat)
    requires i < |s| && IsDigit(s[i])
    ensures i < e <= |s|
    ensures IsNumberGroup(s[i..e])
    ensures e == |s| || !GoesOn(s, e)
    decreases |s| - i
  {
    if i + 1 < |s| && IsDigit(s[i + 1]) then
      var e := NumberEnd(s, i + 1);
      GroupExtends(s, i, i + 1, e);
      e
    else if i + 2 < |s| && s[i + 1] == ',' && IsDigit(s[i + 2]) then
      var e := NumberEnd(s, i + 2);
      GroupExtends(s, i, i + 2, e);
      e
    else
      i + 1
  }

  /** Prefixing a group with a digit, or with a digit and a comma, gives a group. */
  lemma GroupExtends(s: string, i: nat, k: nat, e: nat)
    requires i < k < e <= |s| && IsDigit(s[i]) && IsNumberGroup(s[k..e])
    requires k == i + 1 || (k == i + 2 && s[i + 1] == ',')
    ensures IsNumberGroup(s[i..e])
  {
    var t, u := s[i..e], s[k..e];
    assert u[0] == t[k - i];
    forall j | 0 <= j < |t| ensures InGroup(t, j, |t|) {
      if j >= k - i {
        assert InGroup(u, j - (k - i), |u|);
        if j + 1 < |t| {
          assert t[j + 1] == u[j + 1 - (k - i)];
        }
      }
    }
  }

  /** Whether `\s*RWF` follows is decided by the first character after the whitespace run. */
  lemma SpaceRunDecidesRwf(s: string, q: nat)
    requires q <= |s|
    ensures SpaceThenRwf(s, q) <==> IsPrefix("RWF", s[SpaceRunEnd(s, q)..])
  {
    var m := SpaceRunEnd(s, q);
    if IsPrefix("RWF", s[m..]) {
      assert AllSpace(s[q..m]);
    }
    if SpaceThenRwf(s, q) {
      var k :| q <= k <= |s| && AllSpace(s[q..k]) && IsPrefix("RWF", s[k..]);
      assert k < |s| && s[k] == s[k..][..3][0] == 'R' && !IsSpace(s[k]);
      assert forall j :: q <= j < k ==> IsSpace(s[j]) by {
        forall j | q <= j < k ensures IsSpace(s[j]) { assert s[j] == s[q..k][j - q]; }
      }
      assert m == k;
    }
  }

  /** The characters of a number group, read off the string it lies in. */
  lemma GroupChars(s: string, p: nat, q: nat)
    requires p < q <= |s| && IsNumberGroup(s[p..q])
    ensures IsDigit(s[p])
    ensures forall j :: p <= j < q ==> InGroup(s, j, q)
  {
    var t := s[p..q];
    assert s[p] == t[0];
    forall j | p <= j < q ensures InGroup(s, j, q) {
      assert InGroup(t, j - p, |t|);
      assert s[j] == t[j - p];
      if j + 1 < q {
        assert s[j + 1] == t[j + 1 - p];
      }
    }
  }

  /** `\s*RWF` can only start at a whitespace character or at the `R` itself. */
  lemma RwfStart(s: string, q: nat)
    requires q <= |s| && SpaceThenRwf(s, q)
    ensures q < |s| && (IsSpace(s[q]) || s[q] == 'R')
  {
    var k :| q <= k <= |s| && AllSpace(s[q..k]) && IsPrefix("RWF", s[k..]);
    assert k < |s| && s[k] == s[k..][..3][0];
    if q < k {
      assert s[q] == s[q..k][0];
    }
  }

  /** Where the pattern matches, the group starts with a digit and is the longest number there. */
  lemma MatchEndIsNumberEnd(s: string, p: nat, q: nat)
    ensures AmountMatchAt(s, p, q) ==> p < |s| && IsDigit(s[p]) && q == NumberEnd(s, p)
  {
    if AmountMatchAt(s, p, q) {
      GroupChars(s, p, q);
      RwfStart(s, q);
      assert !IsDigit(s[q]) && s[q] != ',';
      var e := NumberEnd(s, p);
      GroupChars(s, p, e);
      GroupEndsAgree(s, p, q, e);
    }
  }

  /**
   * Two ends of a number group starting at `p` coincide when the group cannot go on past the first,
   * and the second stops at the first character that does not continue it.
   */
  lemma GroupEndsAgree(s: string, p: nat, q: nat, e: nat)
    requires p < q < |s| && p < e <= |s|
    requires forall j :: p <= j < q ==> InGroup(s, j, q)
    requires !IsDigit(s[q]) && s[q] != ','
    requires forall j :: p <= j < e ==> InGroup(s, j, e)
    requires e == |s| || !GoesOn(s, e)
    ensures q == e
  {
    assert e < q ==> InGroup(s, e, q);
    assert q < e ==> InGroup(s, q, e);
  }

  /** The tests the scan makes at `p`: a digit, then after the longest number and its whitespace, `RWF`. */
  predicate ScanHits(s: string, p: nat)
    requires p < |s|
  {
    IsDigit(s[p]) && IsPrefix("RWF", s[SpaceRunEnd(s, NumberEnd(s, p))..])
  }

  /** The pattern matches at no position in `[lo, hi)`. */
  ghost predicate NoMatchFrom(s: string, lo: nat, hi: nat) {
    forall a: nat, b: nat :: lo <= a < hi ==> !AmountMatchAt(s, a, b)
  }

  /** A match at `a` can only capture `s[a..b]`. */
  ghost predicate OnlyEnd(s: string, a: nat, b: nat) {
    forall b': nat :: AmountMatchAt(s, a, b') ==> b' == b
  }

  /** Where the scan's test holds, the pattern matches, with the longest number as its only group. */
  lemma ScanHit(s: string, p: nat)
    requires p < |s| && ScanHits(s, p)
    ensures AmountMatchAt(s, p, NumberEnd(s, p)) && OnlyEnd(s, p, NumberEnd(s, p))
  {
    SpaceRunDecidesRwf(s, NumberEnd(s, p));
    forall b: nat | true ensures AmountMatchAt(s, p, b) ==> b == NumberEnd(s, p) {
      MatchEndIsNumberEnd(s, p, b);
    }
  }

  /** Where the scan's test fails, the pattern does not match. */
  lemma ScanMiss(s: string, p: nat)
    requires p < |s| && !ScanHits(s, p)
    ensures forall b: nat :: !AmountMatchAt(s, p, b)
  {
    forall b: nat | true ensures !AmountMatchAt(s, p, b) {
      MatchEndIsNumberEnd(s, p, b);
      if IsDigit(s[p]) {
        SpaceRunDecidesRwf(s, NumberEnd(s, p));
      }
    }
  }

  /** A range without a match grows by one position on the left where there is none either. */
  lemma NoMatchExtend(s: string, p: nat, hi: nat)
    requires NoMatchFrom(s, p + 1, hi)
    requires forall b: nat :: !AmountMatchAt(s, p, b)
    ensures NoMatchFrom(s, p, hi)
  {
  }

  /** The leftmost position from `p` on where the pattern matches, with the end of its group. */
  function FirstAmountFrom(s: string, p: nat): (r: Option<(nat, nat)>)
    requires p <= |s|
    ensures r.Some? ==> p <= r.value.0 < r.value.1 <= |s| && IsNumberGroup(s[r.value.0..r.value.1])
    decreases |s| - p
  {
    if p == |s| then None
    else if ScanHits(s, p) then Some((p, NumberEnd(s, p)))
    else FirstAmountFrom(s, p + 1)
  }

  /** The scan finds the leftmost match, and the group it reports is the only one possible there. */
  lemma {:induction false} FirstAmountFromCorrect(s: string, p: nat)
    requires p <= |s|
    ensures FirstAmountFrom(s, p).None? ==> NoMatchFrom(s, p, |s|)
    ensures FirstAmountFrom(s, p).Some? ==>
              var a, b := FirstAmountFrom(s, p).value.0, FirstAmountFrom(s, p).value.1;
              AmountMatchAt(s, a, b) && NoMatchFrom(s, p, a) && OnlyEnd(s, a, b)
    decreases |s| - p
  {
    if p < |s| {
      if ScanHits(s, p) {
        ScanHit(s, p);
      } else {
        ScanMiss(s, p);
        FirstAmountFromCorrect(s, p + 1);
        match FirstAmountFrom(s, p + 1)
        case None => NoMatchExtend(s, p, |s|);
        case Some((a, _)) => NoMatchExtend(s, p, a);
      }
    }
  }

  /**
   * `s.replace(',', '')`: no comma is left, a text without commas is returned as it is,
   * and the digits of digits-and-commas are all that remain.
   */
  function RemoveCommas(t: string): (r: string)
    ensures ',' !in r
    ensures ',' !in t ==> r == t
    ensures (forall i :: 0 <= i < |t| ==> IsDigit(t[i]) || t[i] == ',') ==> AllDigits(r)
  {
    if t == [] then [] else (if t[0] == ',' then [] else [t[0]]) + RemoveCommas(t[1..])
  }

  /** Each comma is replaced by nothing: the result holds exactly the input's other characters, as often. */
  lemma {:induction false} RemoveCommasDropsOnlyCommas(t: string)
    ensures multiset(RemoveCommas(t)) == multiset(t)[',' := 0]
  {
    if t != [] {
      assert t == [t[0]] + t[1..];
      RemoveCommasDropsOnlyCommas(t[1..]);
    }
  }

  /** Removing commas works piece by piece, so the other characters keep their order. */
  lemma {:induction false} RemoveCommasConcat(a: string, b: string)
    ensures RemoveCommas(a + b) == RemoveCommas(a) + RemoveCommas(b)
  {
    if a == [] {
      assert a + b == b;
    } else {
      var head := if a[0] == ',' then [] else [a[0]];
      assert (a + b)[0] == a[0] && (a + b)[1..] == a[1..] + b;
      RemoveCommasConcat(a[1..], b);
      calc {
        RemoveCommas(a + b);
        head + RemoveCommas(a[1..] + b);
        head + (RemoveCommas(a[1..]) + RemoveCommas(b));
        (head + RemoveCommas(a[1..])) + RemoveCommas(b);
      }
    }
  }

  /** `int(group.replace(',', ''))`. */
  function GroupValue(t: string): nat
    requires IsNumberGroup(t)
  {
    assert forall i :: 0 <= i < |t| ==> IsDigit(t[i]) || t[i] == ',' by {
      forall i | 0 <= i < |t| ensures IsDigit(t[i]) || t[i] == ',' {
        assert InGroup(t, i, |t|);
      }
    }
    DecimalValue(RemoveCommas(t))
  }

  /** `extract_amount`: the value of the first match's group; 0 without a match. */
  function ExtractAmount(body: string): nat {
    match FirstAmountFrom(body, 0)
    case None => 0
    case Some((p, q)) => GroupValue(body[p..q])
  }

  /**
   * In terms of the pattern itself: no match anywhere gives 0; otherwise the value is
   * that of the group of the leftmost match.
   */
  lemma ExtractAmountSpec(body: string)
    ensures (forall p: nat, q: nat :: !AmountMatchAt(body, p, q)) ==> ExtractAmount(body) == 0
    ensures forall p: nat, q: nat :: AmountMatchAt(body, p, q) && NoMatchFrom(body, 0, p) ==>
              ExtractAmount(body) == GroupValue(body[p..q])
  {
    FirstAmountFromCorrect(body, 0);
    match FirstAmountFrom(body, 0)
    case None =>
    case Some((a, b)) =>
      forall p: nat, q: nat | AmountMatchAt(body, p, q) && NoMatchFrom(body, 0, p) ensures p == a && q == b {
        assert !(a < p) && !(p < a);
      }
  }

  /** Thousands separators are dropped: `1,500 RWF` reads as 1500. */
  lemma CommaGroupedAmount()
    ensures ExtractAmount("1,500 RWF") == 1500
  {
    var s := "1,500 RWF";
    CommaGroupMatches(s);
    assert NoMatchFrom(s, 0, 0);
    ExtractAmountSpec(s);
    CommaGroupValue(s[0..5]);
  }

  /** The pattern matches `1,500 RWF` at 0 with the group `1,500`. */
  lemma CommaGroupMatches(s: string)
    requires s == "1,500 RWF"
    ensures AmountMatchAt(s, 0, 5)
  {
    var t := s[0..5];
    assert t == "1,500";
    assert InGroup(t, 0, 5) && InGroup(t, 1, 5) && InGroup(t, 2, 5) && InGroup(t, 3, 5) && InGroup(t, 4, 5);
    assert IsNumberGroup(t);
    assert s[5..6] == " " && s[6..] == "RWF";
    assert AllSpace(s[5..6]) && IsPrefix("RWF", s[6..]);
  }

  /** `int('1,500'.replace(',', ''))` is 1500. */
  lemma CommaGroupValue(t: string)
    requires t == "1,500"
    ensures IsNumberGroup(t) && GroupValue(t) == 1500
  {
    assert InGroup(t, 0, 5) && InGroup(t, 1, 5) && InGroup(t, 2, 5) && InGroup(t, 3, 5) && InGroup(t, 4, 5);
    CommasDropped(t);
    Decimal1500("1500");
  }

  lemma CommasDropped(t: string)
    requires t == "1,500"
    ensures RemoveCommas(t) == "1500"
  {
    var a, b, c, d := t[1..], t[2..], t[3..], t[4..];
    assert a == ",500" && b == "500" && c == "00" && d == "0" && d[1..] == "";
    assert RemoveCommas(d) == "0";
    assert RemoveCommas(c) == "00";
    assert RemoveCommas(b) == "500";
    assert RemoveCommas(a) == "500";
  }

  lemma Decimal1500(t: string)
    requires t == "1500"
    ensures DecimalValue(t) == 1500
  {
    assert DecimalValue("") == 0;
    assert "1"[..0] == "" && DecimalValue("1") == 1;
    assert "15"[..1] == "1" && DecimalValue("15") == 15;
    assert "150"[..2] == "15" && DecimalValue("150") == 150;
    assert t[..3] == "150";
  }

  // ---------------------------------------------------------------------------
  // Sender and receiver

  /** The three name-capturing searches: a person after "from", a payee after "to", a merchant after "to". */
  datatype NamePattern = SenderName | TransferPayee | PaymentPayee

  /** `re.search(pattern, body)` followed by `.group(1)`; `None` when there is no match. */
  type NameSearch = (NamePattern, string) -> Option<string>

  /** `match.group(1).strip() if match else "Unknown"`. */
  function CapturedOr(search: NameSearch, pattern: NamePattern, body: string): string {
    match search(pattern, body)
    case Some(g) => Strip(g)
    case None => "Unknown"
  }

  /** `extract_sender`. */
  function ExtractSender(body: string, t: TxType, search: NameSearch): string {
    match t
    case Receive => CapturedOr(search, SenderName, body)
    case Deposit => "Bank"
    case _ => "You"
  }

  /** `extract_receiver`. */
  function ExtractReceiver(body: string, t: TxType, search: NameSearch): string {
    match t
    case Receive => "Account Holder"
    case Transfer => CapturedOr(search, TransferPayee, body)
    case Payment => CapturedOr(search, PaymentPayee, body)
    case Deposit => "You"
    case _ => "Unknown"
  }

  /** Whatever the type, one side of the record is the account holder. */
  lemma AccountHolderIsAParty(body: string, t: TxType, search: NameSearch)
    ensures ExtractSender(body, t, search) == "You" ||
            ExtractReceiver(body, t, search) == "You" ||
            ExtractReceiver(body, t, search) == "Account Holder"
  {
  }

  /**
   * The message text is read for the sender of a receive and for the receiver of a transfer
   * or a payment only; every other party is a constant of the type.
   */
  lemma PartiesReadFromTextOnlyWhenNamed(b1: string, b2: string, t: TxType, search: NameSearch)
    ensures t != Receive ==> ExtractSender(b1, t, search) == ExtractSender(b2, t, search)
    ensures t != Transfer && t != Payment ==> ExtractReceiver(b1, t, search) == ExtractReceiver(b2, t, search)
    ensures t != Receive ==> ExtractSender(b1, t, search) in {"Bank", "You"}
    ensures t !in {Transfer, Payment} ==> ExtractReceiver(b1, t, search) in {"Account Holder", "You", "Unknown"}
  {
  }

  /** A captured name never keeps surrounding whitespace. */
  lemma CapturedNamesAreStripped(search: NameSearch, pattern: NamePattern, body: string)
    ensures var r := CapturedOr(search, pattern, body);
            r == [] || (!IsSpace(r[0]) && !IsSpace(r[|r| - 1]))
  {
  }

  // ---------------------------------------------------------------------------
  // Record assembly

  /** One `<sms>` element: its `body`, `date` and `address` attributes, each possibly absent. */
  datatype Sms = Sms(body: Option<string>, date: Option<string>, address: Option<string>)

  /** `convert_timestamp`: milliseconds since the epoch to an ISO-8601 string. */
  type TimestampConversion = Option<string> -> string

  /** Whether a message yields a record: not an OTP, not blank, from M-Money, with a positive amount. */
  predicate Emits(m: Sms) {
    var body := m.body.GetOr("");
    && !(Contains(body, "one-time password") || Strip(body) == [])
    && m.address.GetOr("Unknown") == "M-Money"
    && ExtractAmount(body) > 0
  }

  /** The record built from an accepted message and the id it is given. */
  function MakeRecord(m: Sms, id: nat, search: NameSearch, convert: TimestampConversion): Transaction {
    var body := m.body.GetOr("");
    var t := GetTransactionType(body);
    Transaction(id, Str(t.Name()), Int(ExtractAmount(body)),
                Str(ExtractSender(body, t, search)), Str(ExtractReceiver(body, t, search)),
                convert(m.date))
  }

  /** The records the loop of `parse_xml` has produced after the messages `msgs`. */
  function Extracted(msgs: seq<Sms>, search: NameSearch, convert: TimestampConversion): seq<Transaction> {
    if msgs == [] then []
    else
      var prev := Extracted(msgs[..|msgs| - 1], search, convert);
      var m := msgs[|msgs| - 1];
      if Emits(m) then prev + [MakeRecord(m, |prev| + 1, search, convert)] else prev
  }

  /** The accepted messages, in input order. */
  function Kept(msgs: seq<Sms>): seq<Sms> {
    if msgs == [] then []
    else
      var prev := Kept(msgs[..|msgs| - 1]);
      if Emits(msgs[|msgs| - 1]) then prev + [msgs[|msgs| - 1]] else prev
  }

  /** `parse_xml`'s loop over the `<sms>` elements: filter, build, number from 1. */
  method ParseXml(msgs: seq<Sms>, search: NameSearch, convert: TimestampConversion)
    returns (transactions: seq<Transaction>)
    ensures transactions == Extracted(msgs, search, convert)
  {
    transactions := [];
    var txId := 1;
    for k := 0 to |msgs|
      invariant transactions == Extracted(msgs[..k], search, convert)
      invariant txId == |transactions| + 1
    {
      assert msgs[..k + 1][..k] == msgs[..k];
      var body := msgs[k].body.GetOr("");
      if Contains(body, "one-time password") || Strip(body) == [] {
        continue;
      }
      var address := msgs[k].address.GetOr("Unknown");
      if address == "M-Money" {
        var amount := ExtractAmount(body);
        var txType := GetTransactionType(body);
        var sender := ExtractSender(body, txType, search);
        var receiver := ExtractReceiver(body, txType, search);
        var timestamp := convert(msgs[k].date);
        if amount > 0 {
          var tx := Transaction(txId, Str(txType.Name()), Int(amount), Str(sender), Str(receiver), timestamp);
          transactions := transactions + [tx];
          txId := txId + 1;
        }
      }
    }
    assert msgs[..|msgs|] == msgs;
  }

  /** The output is the accepted messages, in order, numbered consecutively from 1. */
  lemma {:induction false} ExtractedNumbersKept(msgs: seq<Sms>, search: NameSearch, convert: TimestampConversion)
    ensures |Extracted(msgs, search, convert)| == |Kept(msgs)|
    ensures forall i :: 0 <= i < |Kept(msgs)| ==>
              Extracted(msgs, search, convert)[i] == MakeRecord(Kept(msgs)[i], i + 1, search, convert)
  {
    if msgs != [] {
      ExtractedNumbersKept(msgs[..|msgs| - 1], search, convert);
    }
  }

  /** Ids are 1, 2, ..., n in output order, and every record has a positive integer amount. */
  lemma ExtractedIdsAndAmounts(msgs: seq<Sms>, search: NameSearch, convert: TimestampConversion)
    ensures var out := Extracted(msgs, search, convert);
            forall i :: 0 <= i < |out| ==> out[i].id == i + 1 && out[i].amount.Int? && out[i].amount.i > 0
  {
    ExtractedNumbersKept(msgs, search, convert);
    var kept := Kept(msgs);
    forall i | 0 <= i < |kept| ensures Emits(kept[i]) {
      KeptEmit(msgs, i);
    }
  }

  /** Every kept message passes the filter. */
  lemma {:induction false} KeptEmit(msgs: seq<Sms>, i: nat)
    requires i < |Kept(msgs)|
    ensures Emits(Kept(msgs)[i])
  {
    if msgs != [] && i < |Kept(msgs[..|msgs| - 1])| {
      KeptEmit(msgs[..|msgs| - 1], i);
    }
  }

  /** The dataset the ETL step writes therefore has unique ids, as the API expects of its store. */
  lemma ExtractedIdsUnique(msgs: seq<Sms>, search: NameSearch, convert: TimestampConversion)
    ensures UniqueIds(Extracted(msgs, search, convert))
  {
    ExtractedIdsAndAmounts(msgs, search, convert);
  }

  /** An OTP message, a blank body or another sender address contributes nothing to the output. */
  lemma SkippedMessagesEmitNothing(msgs: seq<Sms>, m: Sms, search: NameSearch, convert: TimestampConversion)
    requires var body := m.body.GetOr("");
             Contains(body, "one-time password") || AllSpace(body) || m.address.GetOr("Unknown") != "M-Money"
    ensures Extracted(msgs + [m], search, convert) == Extracted(msgs, search, convert)
  {
    assert (msgs + [m])[..|msgs|] == msgs;
  }
}
