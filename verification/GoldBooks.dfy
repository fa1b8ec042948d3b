/** The gold table and what each webhook does to it and to the accounts. */
module GoldBooks {
  import opened Options
  import opened GoldTime
  import opened Webhooks

  datatype Status = Processed | Unclaimed | Claimed | Reversed

  datatype Row = Row(status: Status, secret: string, days: int, account: string)

  /** Gold days or creddits given to an account, or taken back, on account of a transaction. */
  datatype Posting = Posting(trans: string, account: string, amount: int)

  datatype Books = Books(rows: map<string, Row>, ledger: seq<Posting>)

  datatype Event = Succeeded | Refunded | Failed | DeletedSubscription | Noop

  /** What a completed purchase gives: creddits are months, all else is days. */
  function Gain(p: Purchase): int {
    match DaysFromMonths(p.months)
    case None => 0
    case Some(days) => if p.goldtype == Creddits then p.months else days
  }

  /** complete_gold_purchase. A purchase that trips the assertion on months changes nothing. */
  function Complete(b: Books, p: Purchase): Books {
    match DaysFromMonths(p.months)
    case None => b
    case Some(days) =>
      if p.goldtype == Code then
        if p.trans in b.rows then b else b.(rows := b.rows[p.trans := Row(Unclaimed, "", days, "")])
      else
        var posted := b.(ledger := b.ledger + [Posting(p.trans, p.Beneficiary(), Gain(p))]);
        if p.trans in b.rows then posted  // the insert is refused as a duplicate, after the gold was given
        else posted.(rows := b.rows[p.trans := Row(Processed, Secret(p), days, p.buyer)])
  }

  /** What a reversal takes back, and from whom, as read from the row. */
  function TakeBack(trans: string, row: Row): Option<seq<Posting>> {
    match Parse(row.secret)
    case Unpackable => None
    case Parsed(goldtype, recipient) =>
      if goldtype == "onetime" || goldtype == "autorenew" then Some([Posting(trans, row.account, -row.days)])
      else if goldtype == "creddits" then Some([Posting(trans, row.account, -MonthsTakenBack(row.days))])
      else if goldtype == "gift" && recipient.Some? then Some([Posting(trans, recipient.value, -row.days)])
      else Some([])
  }

  /** reverse_gold_purchase; it raises, changing nothing, when a gift's secret cannot be unpacked. */
  function Reverse(b: Books, trans: string): Books
    requires trans in b.rows
  {
    match TakeBack(trans, b.rows[trans])
    case None => b
    case Some(postings) =>
      Books(b.rows[trans := b.rows[trans].(status := Reversed)], b.ledger + postings)
  }

  /** What a webhook knows when it is processed. Its blob is loaded only while there is no row. */
  function Loaded(b: Books, w: Webhook, blob: Option<Details>): Webhook {
    if w.trans !in b.rows && w.passthrough != "" then w.(details := blob) else w
  }

  /** A webhook is refused, with the status 403, when its blob is needed and cannot be loaded. */
  predicate Forbidden(b: Books, e: Event, w: Webhook, blob: Option<Details>) {
    e != Noop && w.trans !in b.rows && w.passthrough != "" && blob.None?
  }

  /** A success is completed unless its row is there and not reversed. */
  predicate Completes(b: Books, e: Event, w: Webhook, blob: Option<Details>) {
    && e == Succeeded && !Forbidden(b, e, w, blob)
    && (w.trans in b.rows ==> b.rows[w.trans].status == Reversed)
  }

  predicate Reverses(b: Books, e: Event, w: Webhook) {
    e == Refunded && w.trans in b.rows && b.rows[w.trans].status == Processed
  }

  /** Completing raises without the details, because nobody is there to receive gold, and when the months trip
      the assertion; reversing raises when a gift's secret cannot be unpacked. */
  predicate Raises(b: Books, e: Event, w: Webhook, blob: Option<Details>) {
    || (Completes(b, e, w, blob) && (Loaded(b, w, blob).details.None? || DaysFromMonths(w.months).None?))
    || (Reverses(b, e, w) && Parse(b.rows[w.trans].secret).Unpackable?)
  }

  /** process_webhook; `blob` is what its payment blob holds, None if it cannot be loaded. */
  function Process(b: Books, e: Event, w: Webhook, blob: Option<Details>): Books {
    if Raises(b, e, w, blob) then b
    else if Completes(b, e, w, blob) then Complete(b, PurchaseOf(Loaded(b, w, blob)))
    else if Reverses(b, e, w) then Reverse(b, w.trans)
    else b
  }

  datatype Answer = Accepted | Refused | Raised

  /** The gold table in place. */
  class GoldTable {
    var rows: map<string, Row>
    var ledger: seq<Posting>

    constructor ()
      ensures Contents() == Books(map[], [])
    {
      rows, ledger := map[], [];
    }

    function Contents(): Books
      reads this
    {
      Books(rows, ledger)
    }

    method CompleteGoldPurchase(w: Webhook) returns (raised: bool)
      modifies this
      ensures raised <==> w.details.None? || DaysFromMonths(w.months).None?
      ensures Contents() == if raised then old(Contents()) else Complete(old(Contents()), PurchaseOf(w))
    {
      var days := DaysFromMonths(w.months);
      if days.None? {
        return true;
      }
      // without details there is no recipient and no buyer whose lock could be taken
      if w.details.None? {
        return true;
      }
      var p := PurchaseOf(w);
      if p.goldtype == Code {
        if p.trans !in rows {
          rows := rows[p.trans := Row(Unclaimed, "", days.value, "")];
        }
        return false;
      }
      match p.goldtype {
        case Onetime => ledger := ledger + [Posting(p.trans, p.buyer, days.value)];
        case Autorenew => ledger := ledger + [Posting(p.trans, p.buyer, days.value)];
        case Creddits => ledger := ledger + [Posting(p.trans, p.buyer, p.months)];
        case Gift => ledger := ledger + [Posting(p.trans, p.recipient, days.value)];
      }
      if p.trans !in rows {
        rows := rows[p.trans := Row(Processed, Secret(p), days.value, p.buyer)];
      }
      return false;
    }

    method ReverseGoldPurchase(trans: string) returns (raised: bool)
      requires trans in rows
      modifies this
      ensures Contents() == Reverse(old(Contents()), trans)
      ensures raised <==> Parse(old(rows)[trans].secret).Unpackable?
    {
      var row := rows[trans];
      var parsed := Parse(row.secret);
      if parsed.Unpackable? {
        return true;
      }
      if parsed.goldtype == "onetime" || parsed.goldtype == "autorenew" {
        ledger := ledger + [Posting(trans, row.account, -row.days)];
      } else if parsed.goldtype == "creddits" {
        ledger := ledger + [Posting(trans, row.account, -(row.days / 31))];
      } else if parsed.goldtype == "gift" && parsed.recipient.Some? {
        ledger := ledger + [Posting(trans, parsed.recipient.value, -row.days)];
      }
      rows := rows[trans := row.(status := Reversed)];
      return false;
    }

    method ProcessWebhook(e: Event, w: Webhook, blob: Option<Details>) returns (answer: Answer)
      modifies this
      ensures Contents() == Process(old(Contents()), e, w, blob)
      ensures answer == Refused <==> e != Noop && w.trans !in old(rows) && w.passthrough != "" && blob.None?
      ensures answer == Raised && e == Succeeded <==>
        && e == Succeeded && answer != Refused
        && (w.trans in old(rows) ==> old(rows)[w.trans].status == Reversed)
        && ((w.details.None? && (w.trans in old(rows) || w.passthrough == ""))
            || (w.months >= 12 && w.months % 12 != 0))
      ensures answer == Raised ==> Contents() == old(Contents()) && e in {Succeeded, Refunded}
      ensures answer == if Forbidden(old(Contents()), e, w, blob) then Refused
        else if Raises(old(Contents()), e, w, blob) then Raised else Accepted
    {
      if e == Noop {
        return Accepted;
      }
      var existing := w.trans in rows;
      var webhook := w;
      if !existing && w.passthrough != "" {
        if blob.None? {
          return Refused;
        }
        webhook := w.(details := blob);
      }
      var raised := false;
      if e == Succeeded {
        if existing && rows[w.trans].status in {Processed, Unclaimed, Claimed} {
          return Accepted;
        }
        raised := CompleteGoldPurchase(webhook);
      } else if e == Refunded {
        if !(existing && rows[w.trans].status == Processed) {
          return Accepted;
        }
        raised := ReverseGoldPurchase(w.trans);
      }
      return if raised then Raised else Accepted;
    }
  }

  // ------------------------------------------------------------------ who gets what

  /** A completed purchase, spelled out: who is given what, and the row that is written unless there is one. */
  lemma CompletedIs(b: Books, p: Purchase)
    requires p.months < 12 || p.months % 12 == 0
    ensures var days, c := if p.months < 12 then 31 * p.months else 366 * (p.months / 12), Complete(b, p);
      match p.goldtype
      case Onetime => c.ledger == b.ledger + [Posting(p.trans, p.buyer, days)]
      case Autorenew => c.ledger == b.ledger + [Posting(p.trans, p.buyer, days)]
      case Creddits => c.ledger == b.ledger + [Posting(p.trans, p.buyer, p.months)]
      case Gift => c.ledger == b.ledger + [Posting(p.trans, p.recipient, days)]
      case Code => c.ledger == b.ledger
    ensures p.trans in b.rows ==> Complete(b, p).rows == b.rows
    ensures p.trans !in b.rows ==>
      var days := if p.months < 12 then 31 * p.months else 366 * (p.months / 12);
      var tail := if p.passthrough != "" then p.passthrough else p.trans;
      Complete(b, p).rows == b.rows[p.trans :=
        match p.goldtype
        case Onetime => Row(Processed, "onetime-" + tail, days, p.buyer)
        case Autorenew => Row(Processed, "autorenew-" + tail, days, p.buyer)
        case Creddits => Row(Processed, "creddits-" + tail, days, p.buyer)
        case Gift => Row(Processed, "gift-" + p.recipient + "-" + tail, days, p.buyer)
        case Code => Row(Unclaimed, "", days, "")]
  {
    assert "gift" + "-" + (p.recipient + "-" + p.Tail()) == "gift-" + p.recipient + "-" + p.Tail();
    assert "onetime" + "-" == "onetime-" && "autorenew" + "-" == "autorenew-" && "creddits" + "-" == "creddits-";
  }

  /** The reversal of a purchase whose secret can be read back, spelled out: who is taken what from. */
  lemma ReversedIs(b: Books, p: Purchase)
    requires p.trans in b.rows && RowOf(b, p) && p.goldtype != Code && (p.months < 12 || p.months % 12 == 0)
    requires '{' !in p.recipient && '{' !in p.passthrough && '{' !in p.trans
    requires p.goldtype == Gift ==>
      '-' !in p.recipient && '-' !in (if p.passthrough != "" then p.passthrough else p.trans)
    ensures var days, c := if p.months < 12 then 31 * p.months else 366 * (p.months / 12), Reverse(b, p.trans);
      && c.rows == b.rows[p.trans := b.rows[p.trans].(status := Reversed)]
      && match p.goldtype
         case Onetime => c.ledger == b.ledger + [Posting(p.trans, p.buyer, -days)]
         case Autorenew => c.ledger == b.ledger + [Posting(p.trans, p.buyer, -days)]
         case Creddits => c.ledger == b.ledger + [Posting(p.trans, p.buyer, -(days / 31))]
         case Gift => c.ledger == b.ledger + [Posting(p.trans, p.recipient, -days)]
         case Code => true
  {
    TakeBackIsTaken(p, b.rows[p.trans]);
    BraceInSecret(p);
    hide Parse, Secret, TakeBack;
  }

  /** What a webhook does, by its event and the row of its transaction. */
  lemma ProcessedIs(b: Books, e: Event, w: Webhook, blob: Option<Details>)
    ensures e !in {Succeeded, Refunded} ==> Process(b, e, w, blob) == b
    ensures e == Refunded ==>
      Process(b, e, w, blob)
        == if w.trans in b.rows && b.rows[w.trans].status == Processed then Reverse(b, w.trans) else b
    ensures e == Succeeded && w.trans in b.rows ==>
      Process(b, e, w, blob) ==
        if b.rows[w.trans].status == Reversed && w.details.Some? && (w.months < 12 || w.months % 12 == 0) then
          Complete(b, PurchaseOf(w))
        else b
    ensures e == Succeeded && w.trans !in b.rows ==>
      var details := if w.passthrough == "" then w.details else blob;
      Process(b, e, w, blob) ==
        if details.Some? && (w.months < 12 || w.months % 12 == 0) then Complete(b, PurchaseOf(w.(details := details)))
        else b
  {
  }

  // ------------------------------------------------------------------ whole runs

  /** One delivery of an event of some purchase, and whether its blob can be loaded then. */
  datatype Delivery = Delivery(e: Event, p: Purchase, blobOk: bool)

  function Handle(b: Books, d: Delivery): Books {
    Process(b, d.e, Sent(d.p), if d.blobOk then Some(DetailsOf(d.p)) else None)
  }

  function Run(b: Books, ds: seq<Delivery>): Books
    decreases |ds|
  {
    if ds == [] then b else Run(Handle(b, ds[0]), ds[1..])
  }

  function Net(ledger: seq<Posting>, trans: string, account: string): int
    decreases |ledger|
  {
    if ledger == [] then 0
    else
      var last := ledger[|ledger| - 1];
      Net(ledger[..|ledger| - 1], trans, account)
      + if last.trans == trans && last.account == account then last.amount else 0
  }

  lemma NetAppend(ledger: seq<Posting>, more: seq<Posting>, trans: string, account: string)
    requires |more| <= 1
    ensures Net(ledger + more, trans, account) == Net(ledger, trans, account)
      + if |more| == 1 && more[0].trans == trans && more[0].account == account then more[0].amount else 0
  {
    if |more| == 1 {
      assert (ledger + more)[..|ledger|] == ledger;
    } else {
      assert ledger + more == ledger;
    }
  }

  /** What a reversal of `p` takes back from its beneficiary. */
  function Taken(p: Purchase): int {
    match DaysFromMonths(p.months)
    case None => 0
    case Some(days) =>
      if '{' in Secret(p) then 0
      else if p.goldtype == Creddits then MonthsTakenBack(days) else days
  }

  /** A success after the reversal that pays once more: one whose webhook brings its details itself. */
  predicate IsLate(b: Books, d: Delivery, trans: string) {
    && d.e == Succeeded && d.p.trans == trans && d.p.passthrough == ""
    && trans in b.rows && b.rows[trans].status == Reversed
  }

  /** How many such successes of `trans` a run delivers. */
  function Late(b: Books, ds: seq<Delivery>, trans: string): nat
    decreases |ds|
  {
    if ds == [] then 0
    else
      (if IsLate(b, ds[0], trans) then 1 else 0) + Late(Handle(b, ds[0]), ds[1..], trans)
  }

  /** What the status of the row says the beneficiary should have on account of `p`. */
  function Due(b: Books, p: Purchase): int {
    if p.trans !in b.rows then 0
    else match b.rows[p.trans].status
      case Processed => Gain(p)
      case Reversed => Gain(p) - Taken(p)
      case _ => 0
  }

  /** The row of `p`, if there is one, is what completing `p` wrote. */
  predicate RowOf(b: Books, p: Purchase) {
    p.trans in b.rows ==>
      var row := b.rows[p.trans];
      && DaysFromMonths(p.months) == Some(row.days)
      && if p.goldtype == Code then row.status == Unclaimed
         else row.secret == Secret(p) && row.account == p.buyer && row.status in {Processed, Reversed}
  }

  lemma TakeBackIsTaken(p: Purchase, row: Row)
    requires p.goldtype != Code && row.secret == Secret(p) && row.account == p.buyer
    requires DaysFromMonths(p.months) == Some(row.days)
    ensures TakeBack(p.trans, row).None? <==>
      p.goldtype == Gift && '{' !in Secret(p) && ('-' in p.recipient || '-' in p.Tail())
    ensures TakeBack(p.trans, row).Some? ==>
      TakeBack(p.trans, row).value == if '{' in Secret(p) then [] else [Posting(p.trans, p.Beneficiary(), -Taken(p))]
  {
    ParsesBackIff(p);
    BraceInSecret(p);
    hide Parse, Secret;
    assert '-' !in "onetime" && '-' !in "autorenew" && '-' !in "creddits" && '-' !in "gift";
  }

  lemma OtherTransaction(b: Books, d: Delivery, trans: string, account: string)
    requires d.p.trans != trans
    ensures var c := Handle(b, d);
      && (trans in c.rows <==> trans in b.rows)
      && (trans in b.rows ==> c.rows[trans] == b.rows[trans])
      && Net(c.ledger, trans, account) == Net(b.ledger, trans, account)
  {
    if d.e == Succeeded {
      NetAppend(b.ledger, [Posting(d.p.trans, d.p.Beneficiary(), Gain(d.p))], trans, account);
    } else if d.e == Refunded && d.p.trans in b.rows && TakeBack(d.p.trans, b.rows[d.p.trans]).Some? {
      NetAppend(b.ledger, TakeBack(d.p.trans, b.rows[d.p.trans]).value, trans, account);
    }
  }

  lemma CompleteMovesNet(b: Books, p: Purchase, account: string)
    requires RowOf(b, p) && p.goldtype != Code
    requires p.trans in b.rows ==> b.rows[p.trans].status == Reversed
    ensures var c := Complete(b, p);
      && RowOf(c, p)
      && Net(c.ledger, p.trans, account) == Net(b.ledger, p.trans, account)
         + (if account == p.Beneficiary() then Gain(p) else 0)
      && Due(c, p) == if p.trans in b.rows then Due(b, p) else Gain(p)
  {
    hide Net, Secret, DaysFromMonths, MonthsTakenBack;
    NetAppend(b.ledger, [Posting(p.trans, p.Beneficiary(), Gain(p))], p.trans, account);
  }

  lemma ReverseMovesNet(b: Books, p: Purchase, account: string)
    requires RowOf(b, p) && p.goldtype != Code && p.trans in b.rows && b.rows[p.trans].status == Processed
    ensures var c := Reverse(b, p.trans);
      && RowOf(c, p)
      && Net(c.ledger, p.trans, account) == Net(b.ledger, p.trans, account)
         + if account == p.Beneficiary() then Due(c, p) - Due(b, p) else 0
  {
    var row := b.rows[p.trans];
    TakeBackIsTaken(p, row);
    if TakeBack(p.trans, row).Some? {
      NetAppend(b.ledger, TakeBack(p.trans, row).value, p.trans, account);
    }
  }

  /** One webhook moves the beneficiary's net by what it moves the dues, but for a late success. */
  lemma ProcessMovesNet(b: Books, d: Delivery, p: Purchase, account: string)
    requires RowOf(b, p) && (d.p.trans == p.trans ==> d.p == p) && p.goldtype != Code
    ensures var c := Handle(b, d);
      && RowOf(c, p)
      && Net(c.ledger, p.trans, account) - Net(b.ledger, p.trans, account)
         == if account != p.Beneficiary() then 0
            else Due(c, p) - Due(b, p) + if IsLate(b, d, p.trans) then Gain(p) else 0
  {
    if d.p.trans != p.trans {
      OtherTransaction(b, d, p.trans, account);
    } else if d.e == Succeeded && (p.trans in b.rows ==> b.rows[p.trans].status == Reversed) {
      CompleteMovesNet(b, p, account);
    } else if d.e == Refunded && p.trans in b.rows && b.rows[p.trans].status == Processed {
      ReverseMovesNet(b, p, account);
    }
  }

  /** A success that comes after the reversal pays once more if and only if its webhook brings its details
      itself. Otherwise the blob is not loaded again, because the row is there, and completing raises. */
  lemma LateSuccessPaysIff(b: Books, p: Purchase, blobOk: bool)
    requires p.trans in b.rows && b.rows[p.trans].status == Reversed
    requires p.goldtype != Code && DaysFromMonths(p.months).Some?
    ensures var d := Delivery(Succeeded, p, blobOk); var blob := if blobOk then Some(DetailsOf(p)) else None;
      && (Handle(b, d) != b <==> p.passthrough == "")
      && (Raises(b, Succeeded, Sent(p), blob) <==> p.passthrough != "")
      && (p.passthrough == "" ==>
          Handle(b, d) == b.(ledger := b.ledger + [Posting(p.trans, p.Beneficiary(), Gain(p))]))
  {
    assert |b.ledger + [Posting(p.trans, p.Beneficiary(), Gain(p))]| != |b.ledger|;
  }

  lemma {:induction false} PassthroughIsNeverLate(b: Books, ds: seq<Delivery>, p: Purchase)
    requires p.passthrough != ""
    requires forall i :: 0 <= i < |ds| && ds[i].p.trans == p.trans ==> ds[i].p == p
    ensures Late(b, ds, p.trans) == 0
    decreases |ds|
  {
    if ds != [] {
      PassthroughIsNeverLate(Handle(b, ds[0]), ds[1..], p);
    }
  }

  /** Over every run of webhooks of any number of transactions, the beneficiary of a purchase holds on its
      account exactly what the status of its row says, however often events repeat, plus one gain for each
      success after the reversal that brought its details; nobody else holds anything on its account. */
  lemma {:induction false} NetFollowsStatus(b: Books, ds: seq<Delivery>, p: Purchase, account: string)
    requires RowOf(b, p) && p.goldtype != Code
    requires forall i :: 0 <= i < |ds| && ds[i].p.trans == p.trans ==> ds[i].p == p
    ensures var c := Run(b, ds);
      && RowOf(c, p)
      && Net(c.ledger, p.trans, account) - Net(b.ledger, p.trans, account)
         == if account == p.Beneficiary() then Due(c, p) - Due(b, p) + Gain(p) * Late(b, ds, p.trans) else 0
    decreases |ds|
  {
    hide Process, RowOf, Net, Due, Gain, IsLate;
    if ds != [] {
      ProcessMovesNet(b, ds[0], p, account);
      var b' := Handle(b, ds[0]);
      NetFollowsStatus(b', ds[1..], p, account);
      var late := if IsLate(b, ds[0], p.trans) then 1 else 0;
      assert Gain(p) * (late + Late(b', ds[1..], p.trans)) == Gain(p) * late + Gain(p) * Late(b', ds[1..], p.trans);
    }
  }

  /** From empty books, and if no success with details comes after the reversal, as none does for a purchase
      with a passthrough: the purchase's gain exactly when the row is processed, and nothing when it is
      reversed, but for a '{' in the secret or the rounding of creddits. */
  lemma {:induction false} PaidExactlyOnce(ds: seq<Delivery>, p: Purchase)
    requires p.goldtype != Code
    requires forall i :: 0 <= i < |ds| && ds[i].p.trans == p.trans ==> ds[i].p == p
    ensures var c := Run(Books(map[], []), ds);
      var net := Net(c.ledger, p.trans, p.Beneficiary());
      && (p.trans !in c.rows ==> net == 0)
      && (p.trans in c.rows && Gain(p) > 0 ==>
          (net == Due(c, p) <==> Late(Books(map[], []), ds, p.trans) == 0))
      && (p.passthrough != "" ==> net == Due(c, p))
    ensures p.goldtype != Creddits ==> (Gain(p) == Taken(p) <==> '{' !in Secret(p) || Gain(p) == 0)
    ensures p.goldtype == Creddits && '{' !in Secret(p) && p.months >= 0 && DaysFromMonths(p.months).Some? ==>
      Gain(p) - Taken(p) == if p.months < 12 then 0 else Ceiling(6 * (p.months / 12), 31)
  {
    NetFollowsStatus(Books(map[], []), ds, p, p.Beneficiary());
    if p.trans !in Run(Books(map[], []), ds).rows {
      NoRowNoLate(Books(map[], []), ds, p);
    }
    if p.passthrough != "" {
      PassthroughIsNeverLate(Books(map[], []), ds, p);
    }
    if p.months >= 0 && DaysFromMonths(p.months).Some? {
      ReversalShortfall(p.months);
    }
  }

  lemma {:induction false} NoRowNoLate(b: Books, ds: seq<Delivery>, p: Purchase)
    requires p.trans !in Run(b, ds).rows
    ensures p.trans !in b.rows && Late(b, ds, p.trans) == 0
    decreases |ds|
  {
    if ds != [] {
      NoRowNoLate(Handle(b, ds[0]), ds[1..], p);
    }
  }

  // ------------------------------------------------------------------ the status of a row

  /** The reversal of `p` raises: a gift whose secret has another '-' than those between its parts. */
  predicate Unreadable(p: Purchase) {
    var tail := if p.passthrough != "" then p.passthrough else p.trans;
    p.goldtype == Gift && ('-' in p.recipient || '-' in tail) && '{' !in p.recipient && '{' !in tail
  }

  /** What becomes of the row of `p`: the first success makes it, a refund reverses it, and nothing else
      matters. Codes have nothing to be reversed. */
  function StatusAfter(ds: seq<Delivery>, p: Purchase): Option<Status>
    decreases |ds|
  {
    if ds == [] then None
    else
      var before, d := StatusAfter(ds[..|ds| - 1], p), ds[|ds| - 1];
      if d.p.trans != p.trans then before
      else if before.None? && d.e == Succeeded && (p.passthrough == "" || d.blobOk)
           && (p.months < 12 || p.months % 12 == 0) then
        Some(if p.goldtype == Code then Unclaimed else Processed)
      else if before == Some(Processed) && d.e == Refunded && !Unreadable(p) then Some(Reversed)
      else before
  }

  lemma {:induction false} RunOneMore(b: Books, ds: seq<Delivery>, d: Delivery)
    ensures Run(b, ds + [d]) == Handle(Run(b, ds), d)
    decreases |ds|
  {
    if ds == [] {
      assert [d][1..] == [];
    } else {
      assert (ds + [d])[1..] == ds[1..] + [d];
      RunOneMore(Handle(b, ds[0]), ds[1..], d);
    }
  }

  /** The row of `p` has the status, and is what its completion wrote. */
  ghost predicate HasStatus(b: Books, p: Purchase, status: Option<Status>) {
    && RowOf(b, p)
    && (p.trans in b.rows <==> status.Some?)
    && (status.Some? ==> b.rows[p.trans].status == status.value)
  }

  lemma UnreadableRaises(p: Purchase)
    ensures Parse(Secret(p)).Unpackable? <==> Unreadable(p)
  {
    ParsesBackIff(p);
    BraceInSecret(p);
  }

  lemma HandleFollows(b: Books, d: Delivery, p: Purchase, before: Option<Status>)
    requires HasStatus(b, p, before) && (d.p.trans == p.trans ==> d.p == p)
    ensures HasStatus(Handle(b, d), p,
      if d.p.trans != p.trans then before
      else if before.None? && d.e == Succeeded && (p.passthrough == "" || d.blobOk)
           && (p.months < 12 || p.months % 12 == 0) then
        Some(if p.goldtype == Code then Unclaimed else Processed)
      else if before == Some(Processed) && d.e == Refunded && !Unreadable(p) then Some(Reversed)
      else before)
  {
    if d.p.trans != p.trans {
      OtherTransaction(b, d, p.trans, "");
    } else {
      UnreadableRaises(p);
    }
  }

  /** Over every run of webhooks of any transactions the row of a purchase has the status of its history. */
  lemma {:induction false} StatusFollowsHistory(ds: seq<Delivery>, p: Purchase)
    requires forall i :: 0 <= i < |ds| && ds[i].p.trans == p.trans ==> ds[i].p == p
    ensures HasStatus(Run(Books(map[], []), ds), p, StatusAfter(ds, p))
    decreases |ds|
  {
    if ds != [] {
      var n := |ds| - 1;
      StatusFollowsHistory(ds[..n], p);
      assert ds == ds[..n] + [ds[n]];
      RunOneMore(Books(map[], []), ds[..n], ds[n]);
      HandleFollows(Run(Books(map[], []), ds[..n]), ds[n], p, StatusAfter(ds[..n], p));
    }
  }

  lemma {:induction false} CodesPostNothing(b: Books, ds: seq<Delivery>, p: Purchase)
    requires p.goldtype == Code && RowOf(b, p)
    requires forall i :: 0 <= i < |ds| && ds[i].p.trans == p.trans ==> ds[i].p == p
    requires forall i :: 0 <= i < |b.ledger| ==> b.ledger[i].trans != p.trans
    ensures var c := Run(b, ds);
      && RowOf(c, p) && (forall i :: 0 <= i < |c.ledger| ==> c.ledger[i].trans != p.trans)
      && (p.trans in b.rows ==> p.trans in c.rows && c.rows[p.trans] == b.rows[p.trans])
    decreases |ds|
  {
    if ds != [] {
      CodeStep(b, ds[0], p);
      CodesPostNothing(Handle(b, ds[0]), ds[1..], p);
    }
  }

  lemma CodeStep(b: Books, d: Delivery, p: Purchase)
    requires p.goldtype == Code && RowOf(b, p) && (d.p.trans == p.trans ==> d.p == p)
    requires forall i :: 0 <= i < |b.ledger| ==> b.ledger[i].trans != p.trans
    ensures var c := Handle(b, d);
      && RowOf(c, p) && (forall i :: 0 <= i < |c.ledger| ==> c.ledger[i].trans != p.trans)
      && (p.trans in b.rows ==> p.trans in c.rows && c.rows[p.trans] == b.rows[p.trans])
  {
    hide Secret, Parse, Net;
    if d.p.trans != p.trans {
      OtherTransaction(b, d, p.trans, "");
      OtherPostings(b, d, p.trans);
    } else {
      hide TakeBack, Gain;
    }
  }

  /** What a webhook posts is on account of its own transaction. */
  lemma OtherPostings(b: Books, d: Delivery, trans: string)
    requires d.p.trans != trans && forall i :: 0 <= i < |b.ledger| ==> b.ledger[i].trans != trans
    ensures var c := Handle(b, d); forall i :: 0 <= i < |c.ledger| ==> c.ledger[i].trans != trans
  {
    hide Secret, Parse, DaysFromMonths;
  }

  /** Over every run of webhooks a code that was paid for is there exactly if a success of it was accepted; it is
      unclaimed and worth its days, no refund moves it, and nothing is posted for it. */
  lemma {:induction false} CodesAreKept(ds: seq<Delivery>, p: Purchase)
    requires p.goldtype == Code
    requires forall i :: 0 <= i < |ds| && ds[i].p.trans == p.trans ==> ds[i].p == p
    ensures var c := Run(Books(map[], []), ds);
      && (p.trans in c.rows <==>
          (p.months < 12 || p.months % 12 == 0)
          && exists i ::
            0 <= i < |ds| && ds[i].p == p && ds[i].e == Succeeded && (p.passthrough == "" || ds[i].blobOk))
      && (p.trans in c.rows ==>
          && c.rows[p.trans].status == Unclaimed
          && c.rows[p.trans].days == if p.months < 12 then 31 * p.months else 366 * (p.months / 12))
      && forall i :: 0 <= i < |c.ledger| ==> c.ledger[i].trans != p.trans
  {
    CodesPostNothing(Books(map[], []), ds, p);
    StatusFollowsHistory(ds, p);
    CodeStatus(ds, p);
  }

  lemma {:induction false} CodeStatus(ds: seq<Delivery>, p: Purchase)
    requires p.goldtype == Code
    requires forall i :: 0 <= i < |ds| && ds[i].p.trans == p.trans ==> ds[i].p == p
    ensures StatusAfter(ds, p).Some? <==>
      (p.months < 12 || p.months % 12 == 0)
      && exists i :: 0 <= i < |ds| && ds[i].p == p && ds[i].e == Succeeded && (p.passthrough == "" || ds[i].blobOk)
    ensures StatusAfter(ds, p).Some? ==> StatusAfter(ds, p) == Some(Unclaimed)
    decreases |ds|
  {
    if ds != [] {
      var n := |ds| - 1;
      CodeStatus(ds[..n], p);
      assert forall i :: 0 <= i < |ds| ==> (i < n && ds[..n][i] == ds[i]) || i == n;
    }
  }
}
