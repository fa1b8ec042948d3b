/** Payment webhooks: a transaction is completed, perhaps reversed, and its events may come again. */
module Webhooks {
  import opened Options
  import opened GoldTime

  datatype GoldType = Onetime | Autorenew | Creddits | Gift | Code

  function Name(t: GoldType): string {
    match t
    case Onetime => "onetime"
    case Autorenew => "autorenew"
    case Creddits => "creddits"
    case Gift => "gift"
    case Code => "code"
  }

  /** A purchase, as it was made. */
  datatype Purchase = Purchase(trans: string, goldtype: GoldType, buyer: string, recipient: string,
                               months: int, passthrough: string)
  {
    function Tail(): string { if passthrough != "" then passthrough else trans }

    /** Who gets the gold. */
    function Beneficiary(): string { if goldtype == Gift then recipient else buyer }
  }

  /** What a payment blob adds to a webhook. */
  datatype Details = Details(goldtype: GoldType, buyer: string, recipient: string)

  /** A webhook as it is built from a processor's message. Those with a passthrough bring no details: they are
      to be loaded from the payment blob. A redelivered event says the same again. */
  datatype Webhook = Webhook(trans: string, passthrough: string, months: int, details: Option<Details>)

  /** The purchase that a webhook with its details speaks of. */
  function PurchaseOf(w: Webhook): Purchase
    requires w.details.Some?
  {
    var d := w.details.value;
    Purchase(w.trans, d.goldtype, d.buyer, d.recipient, w.months, w.passthrough)
  }

  function DetailsOf(p: Purchase): Details {
    Details(p.goldtype, p.buyer, p.recipient)
  }

  /** The webhook that is sent about a purchase. */
  function Sent(p: Purchase): Webhook {
    Webhook(p.trans, p.passthrough, p.months, if p.passthrough == "" then Some(DetailsOf(p)) else None)
  }

  // ------------------------------------------------------------------ the secret column

  /** Python's str.split on one character. */
  function Split(s: string, c: char): (r: seq<string>)
    ensures |r| >= 1
  {
    if s == "" then [""]
    else
      var r := Split(s[1..], c);
      if s[0] == c then [""] + r else [[s[0]] + r[0]] + r[1..]
  }

  lemma {:induction false} SplitJoin(a: string, c: char, b: string)
    ensures Split(a + [c] + b, c) == Split(a, c) + Split(b, c)
  {
    if a == "" {
      assert a + [c] + b == [c] + b;
    } else {
      assert (a + [c] + b)[1..] == a[1..] + [c] + b;
      SplitJoin(a[1..], c, b);
    }
  }

  lemma {:induction false} SplitWhole(s: string, c: char)
    ensures |Split(s, c)| == 1 <==> c !in s
    ensures c !in s ==> Split(s, c) == [s]
  {
    if s != "" {
      SplitWhole(s[1..], c);
      assert s == [s[0]] + s[1..];
    }
  }

  lemma {:induction false} FirstPiece(a: string, b: string, c: char)
    requires c !in a
    ensures Split(a + b, c)[0] == a + Split(b, c)[0]
  {
    if a == "" {
      assert a + b == b;
    } else {
      assert (a + b)[1..] == a[1..] + b;
      FirstPiece(a[1..], b, c);
    }
  }

  function Secret(p: Purchase): string {
    Name(p.goldtype) + "-" + (if p.goldtype == Gift then p.recipient + "-" + p.Tail() else p.Tail())
  }

  /** What a reversal reads out of the secret column; the unpacking of a gift may fail. */
  datatype Parsed = Parsed(goldtype: string, recipient: Option<string>) | Unpackable

  function Parse(secret: string): Parsed {
    var pieces := if '{' in secret then Split(secret, ',') else Split(secret, '-');
    if pieces[0] != "gift" then Parsed(pieces[0], None)
    else if |pieces| == 3 then Parsed("gift", Some(pieces[1]))
    else Unpackable
  }

  /** The parts of the secret that are safe to write. */
  predicate Plain(p: Purchase) {
    && '{' !in p.Tail()
    && (p.goldtype == Gift ==> '-' !in p.Tail() && '-' !in p.recipient && '{' !in p.recipient)
  }

  lemma SecretSplit(p: Purchase)
    ensures Split(Secret(p), '-') == [Name(p.goldtype)]
      + if p.goldtype == Gift then Split(p.recipient, '-') + Split(p.Tail(), '-') else Split(p.Tail(), '-')
  {
    SplitWhole(Name(p.goldtype), '-');
    if p.goldtype == Gift {
      SplitJoin(p.recipient, '-', p.Tail());
      SplitJoin("gift", '-', p.recipient + "-" + p.Tail());
      assert Secret(p) == "gift" + ['-'] + (p.recipient + "-" + p.Tail());
    } else {
      SplitJoin(Name(p.goldtype), '-', p.Tail());
    }
  }

  lemma BraceInSecret(p: Purchase)
    ensures '{' in Secret(p) <==> '{' in p.Tail() || (p.goldtype == Gift && '{' in p.recipient)
  {
    assert '{' !in Name(p.goldtype) + "-";
  }

  lemma SecretHead(p: Purchase)
    ensures '-' in Split(Secret(p), ',')[0]
  {
    var head := Name(p.goldtype) + "-";
    var rest := if p.goldtype == Gift then p.recipient + "-" + p.Tail() else p.Tail();
    assert Secret(p) == head + rest;
    FirstPiece(head, rest, ',');
    hide Split;
    assert Split(Secret(p), ',')[0][|head| - 1] == '-';
  }

  /** A reversal reads back the gold type and the recipient that were written, if and only if no name or
      tail contains a '{' and, for gifts, none contains a '-'. Where it fails it either cannot unpack a
      gift, or, with a '{', takes for the gold type something that is none. */
  lemma ParsesBackIff(p: Purchase)
    ensures Parse(Secret(p)) == Parsed(Name(p.goldtype), if p.goldtype == Gift then Some(p.recipient) else None)
      <==> Plain(p)
    ensures Parse(Secret(p)).Unpackable? <==>
      p.goldtype == Gift && '{' !in Secret(p) && ('-' in p.recipient || '-' in p.Tail())
    ensures '{' in Secret(p) ==> Parse(Secret(p)).Parsed? && '-' in Parse(Secret(p)).goldtype
  {
    SecretSplit(p);
    SecretHead(p);
    BraceInSecret(p);
    SplitWhole(p.recipient, '-');
    SplitWhole(p.Tail(), '-');
    assert '-' !in Name(p.goldtype) && '-' !in "gift";
  }

  /** Among the secrets that are written and can be refunded, which have no '{' and no '-' in their tail, those
      of gifts to a recipient with a '-' in the name, and only those, cannot be read back. */
  lemma RefundableParsesBackIff(p: Purchase)
    requires '{' !in p.recipient && '{' !in p.Tail() && '-' !in p.Tail()
    ensures Parse(Secret(p)) == Parsed(Name(p.goldtype), if p.goldtype == Gift then Some(p.recipient) else None)
      <==> !(p.goldtype == Gift && '-' in p.recipient)
  {
    ParsesBackIff(p);
  }
}
