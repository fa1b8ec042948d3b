/** Spending creddits: the payment blob, the escrow, and many requests interleaved. */
module Creddits {
  import opened Options

  datatype Status = Initialized | Locked | Processed

  /** Whether the recipient of a gift can be found; a code needs none, which is as good. */
  datatype Recipient = Known | Unknown | Deleted

  /** A payment blob. Only gifts and codes are `spendable`. */
  datatype Blob = Blob(status: Status, spendable: bool, owner: nat, recipient: Recipient)

  datatype Account = Account(creddits: int, escrow: int)

  /** Why get_blob refuses a code. */
  datatype Refusal = NotFound | NotInitialized

  datatype Result<T> = Ok(value: T) | Err(why: Refusal)

  /** get_blob, which holds the blob's lock from its read to its write. */
  function GetBlob(blobs: map<string, Blob>, code: string): Result<map<string, Blob>> {
    if code !in blobs then Err(NotFound)
    else if blobs[code].status != Initialized then Err(NotInitialized)
    else Ok(blobs[code := blobs[code].(status := Locked)])
  }

  /** What the checks of a spend demand of the blob, once it is locked. */
  predicate Accepts(b: Blob, user: nat) {
    b.spendable && b.owner == user && b.recipient == Known
  }

  /** Committing a debit writes the absolute values computed from `seen`, the record as the request last
      read it, over whatever the account is by then. */
  function Debit(account: Account, seen: Account, months: int): Account {
    account.(creddits := seen.creddits - months, escrow := seen.escrow + months)
  }

  /** Committing the release writes the escrow only. */
  function Release(account: Account, seen: Account, months: int): Account {
    account.(escrow := seen.escrow - months)
  }

  // ------------------------------------------------------------------ one request on its own

  datatype Outcome = NiceTry | Refused(why: Refusal) | Raised | BadRecipient | CodeNotSent | Done

  class Shop {
    const employees: set<nat>
    var blobs: map<string, Blob>
    var accounts: map<nat, Account>
    var released: int

    constructor (employees: set<nat>, blobs: map<string, Blob>, accounts: map<nat, Account>)
      ensures this.employees == employees && this.blobs == blobs && this.accounts == accounts && released == 0
    {
      this.employees := employees;
      this.blobs, this.accounts, released := blobs, accounts, 0;
    }

    method TakeBlob(code: string) returns (r: Result<Blob>)
      modifies this`blobs
      ensures match GetBlob(old(blobs), code)
        case Ok(after) => r.Ok? && r.value == old(blobs)[code] && blobs == after
        case Err(why) => r == Err(why) && blobs == old(blobs)
      ensures r.Ok? <==> code in old(blobs) && old(blobs)[code].status == Initialized
      ensures r.Ok? ==> r.value == old(blobs)[code] && blobs == old(blobs)[code := r.value.(status := Locked)]
      ensures r.Err? ==> blobs == old(blobs) && (r.why == NotFound <==> code !in blobs)
    {
      if code !in blobs {
        return Err(NotFound);
      }
      var blob := blobs[code];
      if blob.status != Initialized {
        return Err(NotInitialized);
      }
      blobs := blobs[code := blob.(status := Locked)];
      return Ok(blob);
    }

    /** POST_spendcreddits with nobody else at work. `sent` is whether the gift or the code goes out.
        An employee pays nothing; anybody else never goes below zero, and creddits, escrow and months
        released add up to what they did before. */
    method SpendCreddits(user: nat, months: int, code: string, sent: bool) returns (o: Outcome)
      requires user in accounts
      modifies this
      // how it ends
      ensures o ==
        if months < 1 then NiceTry
        else if code !in old(blobs) then Refused(NotFound)
        else
          var b := old(blobs)[code];
          if b.status != Initialized then Refused(NotInitialized)
          else if !b.spendable || b.owner != user || b.recipient == Unknown then Raised
          else if b.recipient == Deleted then BadRecipient
          else if user !in employees && old(accounts)[user].creddits < months then Raised
          else if !sent then CodeNotSent
          else Done
      // what that leaves
      ensures var a, pays := old(accounts)[user], user !in employees;
        && accounts == old(accounts)[user :=
             if o.Done? && pays then Account(a.creddits - months, a.escrow)
             else if o.CodeNotSent? && pays then Account(a.creddits - months, a.escrow + months)
             else a]
        && released == old(released) + if o.Done? && pays then months else 0
      ensures blobs ==
        if o.NiceTry? || o.Refused? then old(blobs)
        else old(blobs)[code := old(blobs)[code].(status := if o.Done? then Processed else Locked)]
      // so nothing is lost or made
      ensures accounts[user].creddits + accounts[user].escrow + released
        == old(accounts[user].creddits + accounts[user].escrow + released)
      ensures old(accounts[user].creddits) >= 0 ==> accounts[user].creddits >= 0
    {
      if months < 1 {
        return NiceTry;
      }
      var seen := accounts[user];
      var r := TakeBlob(code);
      if r.Err? {
        return Refused(r.why);
      }
      if !r.value.spendable {
        return Raised;
      }
      if r.value.owner != user {
        return Raised;
      }
      if r.value.recipient == Unknown {
        return Raised;
      }
      if r.value.recipient == Deleted {
        return BadRecipient;
      }
      if user !in employees {
        if months > seen.creddits {
          return Raised;
        }
        accounts := accounts[user := Debit(accounts[user], seen, months)];
        seen := accounts[user];
      }
      if !sent {
        return CodeNotSent;
      }
      if user !in employees {
        accounts := accounts[user := Release(accounts[user], seen, months)];
        released := released + months;
      }
      blobs := blobs[code := r.value.(status := Processed)];
      return Done;
    }
  }

  // ------------------------------------------------------------------ many requests

  /** Where a request stands; `Dead` is where it stays when it raises or its process dies. */
  datatype Phase = Started | HasBlob | Debited | Delivered | Released | Finished | Dead

  /** A request, with the account record as it last read it; `held` says that its months are in escrow. */
  datatype Request = Request(user: nat, code: string, months: int, phase: Phase, seen: Account, held: bool)
  {
    predicate Live() { phase != Finished && phase != Dead }
  }

  /** All requests and what they share. `wins` lists the codes that get_blob has handed out; `granted`
      and `released` count each account's creddits given to it and months delivered for it. */
  datatype World = World(
    employees: set<nat>,
    blobs: map<string, Blob>,
    accounts: map<nat, Account>,
    requests: seq<Request>,
    wins: seq<string>,
    granted: map<nat, int>,
    released: map<nat, int>)

  datatype Action =
    | NewBlob(code: string, blob: Blob)     // generate_blob picks a code never used before
    | Grant(user: nat, n: nat)              // a purchase of creddits, an atomic increment
    | Open(user: nat, code: string, months: int)
    | Advance(i: nat, sent: bool)
    | Die(i: nat)

  function With(w: World, i: nat, r: Request): World
    requires i < |w.requests|
  {
    w.(requests := w.requests[i := r])
  }

  function Get(m: map<nat, int>, u: nat): int {
    if u in m then m[u] else 0
  }

  /** The next step of request `i`; None when it has none. */
  function StepOf(w: World, i: nat, sent: bool): Option<World>
    requires i < |w.requests| && w.requests[i].user in w.accounts
  {
    var r := w.requests[i];
    match r.phase
    case Started =>
      (match GetBlob(w.blobs, r.code)
       case Err(_) => Some(With(w, i, r.(phase := Dead)))
       case Ok(blobs) => Some(With(w, i, r.(phase := HasBlob)).(blobs := blobs, wins := w.wins + [r.code])))
    case HasBlob =>
      if r.code !in w.blobs || !Accepts(w.blobs[r.code], r.user) then Some(With(w, i, r.(phase := Dead)))
      else if r.user in w.employees then Some(With(w, i, r.(phase := Debited)))
      else if r.months > r.seen.creddits then Some(With(w, i, r.(phase := Dead)))
      else
        var account := Debit(w.accounts[r.user], r.seen, r.months);
        Some(With(w, i, r.(phase := Debited, held := true, seen := account))
             .(accounts := w.accounts[r.user := account]))
    case Debited => Some(With(w, i, r.(phase := if sent then Delivered else Dead)))
    case Delivered =>
      if r.user in w.employees then Some(With(w, i, r.(phase := Released)))
      else
        var account := Release(w.accounts[r.user], r.seen, r.months);
        Some(With(w, i, r.(phase := Released, held := false, seen := account))
             .(accounts := w.accounts[r.user := account],
               released := w.released[r.user := Get(w.released, r.user) + r.months]))
    case Released =>
      Some(With(w, i, r.(phase := Finished))
           .(blobs := if r.code in w.blobs then w.blobs[r.code := w.blobs[r.code].(status := Processed)] else w.blobs))
    case Finished => None
    case Dead => None
  }

  function Next(w: World, a: Action): Option<World> {
    match a
    case NewBlob(code, blob) =>
      if code in w.blobs || blob.status != Initialized then None else Some(w.(blobs := w.blobs[code := blob]))
    case Grant(user, n) =>
      if user !in w.accounts then None
      else Some(w.(accounts := w.accounts[user := w.accounts[user].(creddits := w.accounts[user].creddits + n)],
                   granted := w.granted[user := Get(w.granted, user) + n]))
    case Open(user, code, months) =>
      if user !in w.accounts || months < 1 then None
      else Some(w.(requests := w.requests + [Request(user, code, months, Started, w.accounts[user], false)]))
    case Advance(i, sent) =>
      if i < |w.requests| && w.requests[i].user in w.accounts then StepOf(w, i, sent) else None
    case Die(i) =>
      if i < |w.requests| && w.requests[i].Live() then Some(With(w, i, w.requests[i].(phase := Dead))) else None
  }

  function Run(w: World, schedule: seq<Action>): Option<World>
    decreases |schedule|
  {
    if schedule == [] then Some(w)
    else match Next(w, schedule[0]) case None => None case Some(v) => Run(v, schedule[1..])
  }

  /** Nobody has asked for anything yet. */
  predicate Start(w: World) {
    && w.requests == [] && w.wins == []
    && (forall c :: c in w.blobs ==> w.blobs[c].status == Initialized)
    && (forall u :: u in w.accounts ==>
        w.accounts[u].creddits >= 0 && w.accounts[u].escrow == 0
        && Get(w.granted, u) == w.accounts[u].creddits && Get(w.released, u) == 0)
  }

  // ------------------------------------------------------------------ each code is handed out once

  predicate Distinct(codes: seq<string>) {
    forall i, j :: 0 <= i < j < |codes| ==> codes[i] != codes[j]
  }

  /** Past get_blob. */
  predicate Owns(r: Request) { r.phase in {HasBlob, Debited, Delivered, Released} || r.held }

  ghost predicate BlobsHandedOutOnce(w: World) {
    && Distinct(w.wins)
    && (forall c :: c in w.wins ==> c in w.blobs && w.blobs[c].status != Initialized)
    && (forall i :: 0 <= i < |w.requests| ==> InPlace(w, w.requests[i]))
    && (forall i, j :: 0 <= i < j < |w.requests| && Owns(w.requests[i]) && Owns(w.requests[j]) ==>
        w.requests[i].code != w.requests[j].code)
  }

  /** A request that has got its blob is alone with a locked one; only such a request has anything in escrow. */
  predicate InPlace(w: World, r: Request) {
    && (Owns(r) ==> r.code in w.wins && r.code in w.blobs && w.blobs[r.code].status == Locked)
    && (r.held ==> r.phase !in {Started, HasBlob, Released, Finished} && r.user !in w.employees)
    && (r.phase in {Debited, Delivered} && r.user !in w.employees ==> r.held)
    && r.months >= 1
  }

  /** A request that keeps its blob or lets go of it. */
  lemma MoveKeepsOnce(w: World, i: nat, r: Request)
    requires BlobsHandedOutOnce(w) && i < |w.requests|
    requires r.code == w.requests[i].code && (Owns(r) ==> Owns(w.requests[i])) && InPlace(w, r)
    ensures BlobsHandedOutOnce(With(w, i, r))
  {
  }

  lemma TakeKeepsOnce(w: World, i: nat)
    requires BlobsHandedOutOnce(w) && i < |w.requests| && w.requests[i].user in w.accounts
    requires w.requests[i].phase == Started && GetBlob(w.blobs, w.requests[i].code).Ok?
    ensures BlobsHandedOutOnce(StepOf(w, i, true).value)
  {
  }

  lemma FinishKeepsOnce(w: World, i: nat)
    requires BlobsHandedOutOnce(w) && i < |w.requests| && w.requests[i].user in w.accounts
    requires w.requests[i].phase == Released
    ensures BlobsHandedOutOnce(StepOf(w, i, true).value)
  {
  }

  lemma StepKeepsOnce(w: World, i: nat, sent: bool)
    requires BlobsHandedOutOnce(w) && i < |w.requests| && w.requests[i].user in w.accounts
    requires StepOf(w, i, sent).Some?
    ensures BlobsHandedOutOnce(StepOf(w, i, sent).value)
  {
    var r, v := w.requests[i], StepOf(w, i, sent).value;
    assert InPlace(w, r);
    if r.phase == Started && GetBlob(w.blobs, r.code).Ok? {
      TakeKeepsOnce(w, i);
    } else if r.phase == Released {
      FinishKeepsOnce(w, i);
    } else {
      MoveKeepsOnce(w, i, v.requests[i]);
    }
  }

  lemma NextHandsOutOnce(w: World, a: Action)
    requires BlobsHandedOutOnce(w) && Next(w, a).Some?
    ensures BlobsHandedOutOnce(Next(w, a).value)
  {
    var v := Next(w, a).value;
    match a
    case Advance(i, sent) => StepKeepsOnce(w, i, sent);
    case Die(i) => assert InPlace(w, w.requests[i]); MoveKeepsOnce(w, i, v.requests[i]);
    case NewBlob(code, _) =>
      forall j | 0 <= j < |v.requests| ensures InPlace(v, v.requests[j]) {
        assert InPlace(w, w.requests[j]);
      }
    case Grant(_, _) =>
    case Open(_, _, _) =>
      forall j | 0 <= j < |v.requests| ensures InPlace(v, v.requests[j]) {
        assert j < |w.requests| ==> InPlace(w, w.requests[j]);
      }
  }

  /** Over every interleaving get_blob succeeds at most once for each code, and the months of a request
      in escrow are there under a locked blob that no other request has. */
  lemma {:induction false} EachCodeOnce(w: World, schedule: seq<Action>)
    requires BlobsHandedOutOnce(w) && Run(w, schedule).Some?
    ensures BlobsHandedOutOnce(Run(w, schedule).value)
    decreases |schedule|
  {
    if schedule != [] {
      NextHandsOutOnce(w, schedule[0]);
      EachCodeOnce(Next(w, schedule[0]).value, schedule[1..]);
    }
  }

  // ------------------------------------------------------------------ only one's own blobs are spent

  /** Past the checks of the blob. */
  predicate Spends(r: Request) { r.phase in {Debited, Delivered, Released, Finished} || r.held }

  /** A request that spends has a blob of its own user that is for a gift or a code, with a recipient who can be
      found; when it is finished the blob is processed. */
  predicate Entitled(w: World, r: Request) {
    && (Spends(r) ==>
        && r.code in w.blobs && w.blobs[r.code].spendable
        && w.blobs[r.code].owner == r.user && w.blobs[r.code].recipient == Known)
    && (r.phase == Finished ==> r.code in w.blobs && w.blobs[r.code].status == Processed)
  }

  ghost predicate AllEntitled(w: World) {
    forall i :: 0 <= i < |w.requests| ==> Entitled(w, w.requests[i])
  }

  /** What a blob says of its owner and its recipient stays, and it is never unlocked. */
  lemma BlobsStay(w: World, a: Action, c: string)
    requires Next(w, a).Some? && c in w.blobs
    ensures var v := Next(w, a).value;
      && c in v.blobs && v.blobs[c] == w.blobs[c].(status := v.blobs[c].status)
      && (w.blobs[c].status == Processed ==> v.blobs[c].status == Processed)
  {
  }

  lemma StepIsEntitled(w: World, i: nat, sent: bool)
    requires i < |w.requests| && w.requests[i].user in w.accounts && StepOf(w, i, sent).Some?
    requires Entitled(w, w.requests[i])
    ensures var v := StepOf(w, i, sent).value;
      && |v.requests| == |w.requests| && v.requests == w.requests[i := v.requests[i]]
      && Entitled(v, v.requests[i])
  {
  }

  lemma NextIsEntitled(w: World, a: Action)
    requires AllEntitled(w) && Next(w, a).Some?
    ensures AllEntitled(Next(w, a).value)
  {
    var v := Next(w, a).value;
    if a.Advance? {
      StepIsEntitled(w, a.i, a.sent);
    }
    forall j | 0 <= j < |v.requests| ensures Entitled(v, v.requests[j]) {
      if j < |w.requests| {
        var r := w.requests[j];
        assert Entitled(w, r);
        if r.code in w.blobs {
          BlobsStay(w, a, r.code);
        }
      }
    }
  }

  /** Over every interleaving nobody spends a blob that is not his own, or for what it cannot be spent on. */
  lemma {:induction false} OnlyOwnBlobsAreSpent(w: World, schedule: seq<Action>)
    requires AllEntitled(w) && Run(w, schedule).Some?
    ensures AllEntitled(Run(w, schedule).value)
    decreases |schedule|
  {
    if schedule != [] {
      NextIsEntitled(w, schedule[0]);
      OnlyOwnBlobsAreSpent(Next(w, schedule[0]).value, schedule[1..]);
    }
  }

  // ------------------------------------------------------------------ one request of the machine alone

  function Alone(w: World, i: nat, sent: bool, n: nat): Option<World>
    requires i < |w.requests|
    decreases n
  {
    if n == 0 then Some(w)
    else if w.requests[i].user !in w.accounts then None
    else match StepOf(w, i, sent)
      case None => None
      case Some(v) => if |v.requests| == |w.requests| then Alone(v, i, sent, n - 1) else None
  }

  /** Five steps of a request that nobody gets between do what the method does when it is done. */
  lemma AloneIsDone(w: World, i: nat)
    requires i < |w.requests| && w.requests[i].phase == Started && w.requests[i].user in w.accounts
    requires w.requests[i].seen == w.accounts[w.requests[i].user]
    requires var r := w.requests[i];
      && r.code in w.blobs && w.blobs[r.code] == Blob(Initialized, true, r.user, Known)
      && (r.user in w.employees || r.months <= w.accounts[r.user].creddits)
    ensures var r, o := w.requests[i], Alone(w, i, true, 5);
      var a, pays := w.accounts[r.user], r.user !in w.employees;
      && o.Some? && |o.value.requests| == |w.requests| && o.value.requests[i].phase == Finished
      && o.value.blobs == w.blobs[r.code := w.blobs[r.code].(status := Processed)]
      && (pays ==> o.value.accounts == w.accounts[r.user := Account(a.creddits - r.months, a.escrow)])
      && (!pays ==> o.value.accounts == w.accounts)
      && Get(o.value.released, r.user) == Get(w.released, r.user) + if pays then r.months else 0
  {
    var v1 := StepOf(w, i, true).value;
    var v2 := StepOf(v1, i, true).value;
    var v3 := StepOf(v2, i, true).value;
    var v4 := StepOf(v3, i, true).value;
    var v5 := StepOf(v4, i, true).value;
    assert Alone(v5, i, true, 0) == Some(v5);
    assert Alone(v4, i, true, 1) == Some(v5);
    assert Alone(v3, i, true, 2) == Some(v5);
    assert Alone(v2, i, true, 3) == Some(v5);
    assert Alone(v1, i, true, 4) == Some(v5);
  }

  /** If the gift or the code does not go out, the request dies with its months in escrow. */
  lemma AloneNotSent(w: World, i: nat)
    requires i < |w.requests| && w.requests[i].phase == Debited && w.requests[i].user in w.accounts
    ensures StepOf(w, i, false) == Some(With(w, i, w.requests[i].(phase := Dead)))
  {
  }

  // ------------------------------------------------------------------ conservation

  function Part(r: Request, user: nat): int {
    if r.held && r.user == user then r.months else 0
  }

  /** The months that requests of `user` have in escrow, dead requests included. */
  function SumHeld(rs: seq<Request>, user: nat): int
    decreases |rs|
  {
    if rs == [] then 0 else SumHeld(rs[..|rs| - 1], user) + Part(rs[|rs| - 1], user)
  }

  lemma {:induction false} SumUpdate(rs: seq<Request>, i: nat, r: Request, user: nat)
    requires i < |rs|
    ensures SumHeld(rs[i := r], user) == SumHeld(rs, user) - Part(rs[i], user) + Part(r, user)
    decreases |rs|
  {
    var n := |rs| - 1;
    if i == n {
      assert rs[i := r][..n] == rs[..n];
    } else {
      assert rs[i := r][..n] == rs[..n][i := r];
      SumUpdate(rs[..n], i, r, user);
    }
  }

  /** The account's creddits are not negative, its escrow is exactly what its requests have there, and
      creddits, escrow and months released add up to what it was granted. */
  predicate Balanced(w: World, user: nat) {
    user in w.accounts ==>
      var a := w.accounts[user];
      && a.creddits >= 0
      && a.escrow == SumHeld(w.requests, user)
      && a.creddits + a.escrow + Get(w.released, user) == Get(w.granted, user)
  }

  /** The step commits a debit. */
  predicate Debits(w: World, a: Action) {
    && a.Advance? && a.i < |w.requests|
    && var r := w.requests[a.i];
       r.phase == HasBlob && r.user in w.accounts && r.user !in w.employees
       && r.code in w.blobs && Accepts(w.blobs[r.code], r.user) && r.months <= r.seen.creddits
  }

  /** The step commits a release. */
  predicate Releases(w: World, a: Action) {
    && a.Advance? && a.i < |w.requests|
    && var r := w.requests[a.i];
       r.phase == Delivered && r.user in w.accounts && r.user !in w.employees
  }

  /** A step that commits finds what it overwrites as the request last read it. */
  predicate Fresh(w: World, a: Action) {
    && (Debits(w, a) ==> w.requests[a.i].seen == w.accounts[w.requests[a.i].user])
    && (Releases(w, a) ==> w.requests[a.i].seen.escrow == w.accounts[w.requests[a.i].user].escrow)
  }

  lemma DebitBalancedIff(w: World, i: nat, user: nat)
    requires BlobsHandedOutOnce(w) && Balanced(w, user) && user in w.accounts && Debits(w, Advance(i, true))
    ensures var v := StepOf(w, i, true).value;
      if w.requests[i].user == user then Balanced(v, user) <==> w.requests[i].seen == w.accounts[user]
      else Balanced(v, user)
  {
    var r := w.requests[i];
    assert InPlace(w, r);
    var account := Debit(w.accounts[r.user], r.seen, r.months);
    SumUpdate(w.requests, i, r.(phase := Debited, held := true, seen := account), user);
  }

  lemma ReleaseBalancedIff(w: World, i: nat, user: nat)
    requires BlobsHandedOutOnce(w) && Balanced(w, user) && user in w.accounts && Releases(w, Advance(i, true))
    ensures var v := StepOf(w, i, true).value;
      if w.requests[i].user == user then Balanced(v, user) <==> w.requests[i].seen.escrow == w.accounts[user].escrow
      else Balanced(v, user)
  {
    var r := w.requests[i];
    assert InPlace(w, r);
    var account := Release(w.accounts[r.user], r.seen, r.months);
    SumUpdate(w.requests, i, r.(phase := Released, held := false, seen := account), user);
  }

  lemma OtherMove(w: World, a: Action)
    requires BlobsHandedOutOnce(w) && Next(w, a).Some? && (a.Advance? || a.Die?)
    requires !Debits(w, a) && !Releases(w, a)
    ensures var v := Next(w, a).value;
      && a.i < |w.requests| == |v.requests| && v.requests == w.requests[a.i := v.requests[a.i]]
      && v.accounts == w.accounts && v.granted == w.granted && v.released == w.released
      && v.requests[a.i].held == w.requests[a.i].held && v.requests[a.i].user == w.requests[a.i].user
      && v.requests[a.i].months == w.requests[a.i].months
  {
    assert InPlace(w, w.requests[a.i]);
  }

  lemma OtherStepBalanced(w: World, a: Action, user: nat)
    requires BlobsHandedOutOnce(w) && Balanced(w, user) && user in w.accounts && Next(w, a).Some?
    requires !Debits(w, a) && !Releases(w, a)
    ensures Balanced(Next(w, a).value, user)
  {
    var v := Next(w, a).value;
    if a.Advance? || a.Die? {
      OtherMove(w, a);
      SumUpdate(w.requests, a.i, v.requests[a.i], user);
    } else if a.Open? {
      assert v.requests[..|w.requests|] == w.requests;
    }
  }

  /** A step that commits for an account keeps it balanced if and only if it is fresh; any other step
      always does. */
  lemma StaysBalancedIffFresh(w: World, a: Action, user: nat)
    requires BlobsHandedOutOnce(w) && Balanced(w, user) && user in w.accounts && Next(w, a).Some?
    ensures if (Debits(w, a) || Releases(w, a)) && w.requests[a.i].user == user
      then Balanced(Next(w, a).value, user) <==> Fresh(w, a)
      else Balanced(Next(w, a).value, user)
  {
    if Debits(w, a) {
      DebitBalancedIff(w, a.i, user);
      assert Next(w, a) == StepOf(w, a.i, true);
    } else if Releases(w, a) {
      ReleaseBalancedIff(w, a.i, user);
      assert Next(w, a) == StepOf(w, a.i, true);
    } else {
      OtherStepBalanced(w, a, user);
    }
  }

  /** Every step of the run that commits for `user` is fresh. */
  predicate FreshRun(w: World, schedule: seq<Action>, user: nat)
    decreases |schedule|
  {
    schedule == [] ||
    (((Debits(w, schedule[0]) || Releases(w, schedule[0])) && w.requests[schedule[0].i].user == user ==>
        Fresh(w, schedule[0]))
     && (Next(w, schedule[0]).Some? ==> FreshRun(Next(w, schedule[0]).value, schedule[1..], user)))
  }

  /** The account is balanced after every prefix of the run. */
  predicate BalancedThroughout(w: World, schedule: seq<Action>, user: nat)
    decreases |schedule|
  {
    && Balanced(w, user)
    && (schedule != [] && Next(w, schedule[0]).Some? ==>
        BalancedThroughout(Next(w, schedule[0]).value, schedule[1..], user))
  }

  /** Over every interleaving, whatever becomes of other accounts and wherever requests die: the account stays
      balanced all along if and only if every commit for it is fresh. */
  lemma {:induction false} BalancedIffFresh(w: World, schedule: seq<Action>, user: nat)
    requires BlobsHandedOutOnce(w) && Balanced(w, user) && user in w.accounts && Run(w, schedule).Some?
    ensures BalancedThroughout(w, schedule, user) <==> FreshRun(w, schedule, user)
    ensures BlobsHandedOutOnce(Run(w, schedule).value) && user in Run(w, schedule).value.accounts
    ensures FreshRun(w, schedule, user) ==> Balanced(Run(w, schedule).value, user)
    decreases |schedule|
  {
    hide Balanced, BlobsHandedOutOnce, Fresh;
    if schedule != [] {
      StaysBalancedIffFresh(w, schedule[0], user);
      NextHandsOutOnce(w, schedule[0]);
      var v := Next(w, schedule[0]).value;
      AccountsStay(w, schedule[0], user);
      if Balanced(v, user) {
        BalancedIffFresh(v, schedule[1..], user);
      } else {
        EachCodeOnce(v, schedule[1..]);
        RunKeepsAccount(v, schedule[1..], user);
      }
    }
  }

  lemma AccountsStay(w: World, a: Action, user: nat)
    requires user in w.accounts && Next(w, a).Some?
    ensures user in Next(w, a).value.accounts
  {
  }

  lemma {:induction false} RunKeepsAccount(w: World, schedule: seq<Action>, user: nat)
    requires user in w.accounts && Run(w, schedule).Some?
    ensures user in Run(w, schedule).value.accounts
    decreases |schedule|
  {
    if schedule != [] {
      AccountsStay(w, schedule[0], user);
      RunKeepsAccount(Next(w, schedule[0]).value, schedule[1..], user);
    }
  }

  // ------------------------------------------------------------------ when commits are fresh

  predicate Idle(w: World, user: nat) {
    forall i :: 0 <= i < |w.requests| && w.requests[i].user == user ==> !w.requests[i].Live()
  }

  /** No request or purchase of the account starts while another of its requests is at work. */
  predicate OneAtATime(w: World, schedule: seq<Action>, user: nat)
    decreases |schedule|
  {
    schedule == [] ||
    (((schedule[0].Open? || schedule[0].Grant?) && schedule[0].user == user ==> Idle(w, user))
     && (Next(w, schedule[0]).Some? ==> OneAtATime(Next(w, schedule[0]).value, schedule[1..], user)))
  }

  /** The account has at most one live request, which knows the account as it is. */
  ghost predicate Apart(w: World, user: nat) {
    && user in w.accounts
    && (forall i :: 0 <= i < |w.requests| && w.requests[i].Live() && w.requests[i].user == user ==>
        w.requests[i].seen == w.accounts[user])
    && (forall i, j :: 0 <= i < j < |w.requests| && w.requests[i].Live() && w.requests[j].Live() ==>
        w.requests[i].user != user || w.requests[j].user != user)
  }

  lemma MoveKeepsApart(w: World, v: World, i: nat, r: Request, user: nat)
    requires Apart(w, user) && i < |w.requests| && v.requests == w.requests[i := r] && user in v.accounts
    requires r.user == w.requests[i].user && w.requests[i].Live()
    requires r.user == user && r.Live() ==> r.seen == v.accounts[user]
    requires r.user != user ==> v.accounts[user] == w.accounts[user]
    ensures Apart(v, user)
  {
  }

  /** A step or the end of a request: what it leaves of the request, and that other accounts stay. */
  lemma MoveOf(w: World, a: Action)
    requires Next(w, a).Some? && (a.Advance? || a.Die?)
    ensures var v := Next(w, a).value;
      && a.i < |w.requests| == |v.requests| && v.requests == w.requests[a.i := v.requests[a.i]]
      && w.requests[a.i].Live() && v.requests[a.i].user == w.requests[a.i].user
      && ((v.requests[a.i].seen == w.requests[a.i].seen && v.accounts == w.accounts)
          || (w.requests[a.i].user in v.accounts && v.requests[a.i].seen == v.accounts[w.requests[a.i].user]))
  {
  }

  lemma OtherAccountsStay(w: World, a: Action, user: nat)
    requires Next(w, a).Some? && (a.Advance? || a.Die?) && user in w.accounts
    ensures a.i < |w.requests| && user in Next(w, a).value.accounts
    ensures user != w.requests[a.i].user ==> Next(w, a).value.accounts[user] == w.accounts[user]
  {
  }

  lemma NextKeepsApart(w: World, a: Action, user: nat)
    requires Apart(w, user) && Next(w, a).Some? && ((a.Open? || a.Grant?) && a.user == user ==> Idle(w, user))
    ensures Apart(Next(w, a).value, user)
  {
    if a.Advance? || a.Die? {
      MoveOf(w, a);
      OtherAccountsStay(w, a, user);
      hide Next;
      MoveKeepsApart(w, Next(w, a).value, a.i, Next(w, a).value.requests[a.i], user);
    }
  }

  /** If an account's requests run one at a time, in whatever interleaving with those of other accounts,
      which may overlap, every commit for it is fresh. */
  lemma {:induction false} OneAtATimeIsFresh(w: World, schedule: seq<Action>, user: nat)
    requires Apart(w, user) && OneAtATime(w, schedule, user)
    ensures FreshRun(w, schedule, user)
    decreases |schedule|
  {
    if schedule != [] && Next(w, schedule[0]).Some? {
      NextKeepsApart(w, schedule[0], user);
      OneAtATimeIsFresh(Next(w, schedule[0]).value, schedule[1..], user);
    }
  }

  /** So such an account is balanced all along, from the start. */
  lemma {:induction false} SerialAccountsConserve(w: World, schedule: seq<Action>, user: nat)
    requires Start(w) && user in w.accounts && OneAtATime(w, schedule, user) && Run(w, schedule).Some?
    ensures BalancedThroughout(w, schedule, user) && BlobsHandedOutOnce(Run(w, schedule).value)
    ensures Balanced(Run(w, schedule).value, user)
  {
    OneAtATimeIsFresh(w, schedule, user);
    BalancedIffFresh(w, schedule, user);
  }

  lemma {:induction false} RunSplit(w: World, s: seq<Action>, t: seq<Action>)
    requires Run(w, s).Some?
    ensures Run(w, s + t) == Run(Run(w, s).value, t)
    decreases |s|
  {
    if s == [] {
      assert s + t == t;
    } else {
      assert (s + t)[1..] == s[1..] + t;
      RunSplit(Next(w, s[0]).value, s[1..], t);
    }
  }

  lemma RunTwo(w: World, a: Action, b: Action, v: World)
    requires Next(w, a).Some? && Next(Next(w, a).value, b).Some?
    requires var o := Next(Next(w, a).value, b).value;
      && o.employees == v.employees && o.blobs == v.blobs && o.accounts == v.accounts && o.requests == v.requests
      && o.wins == v.wins && o.granted == v.granted && o.released == v.released
    ensures Run(w, [a, b]) == Some(v)
  {
    assert [a, b][1..] == [b] && [b][1..] == [];
    assert Run(Next(w, a).value, [b]) == Next(Next(w, a).value, b);
  }

  /** Two requests of one account for six months each, both as far as `phase`. */
  function Both(account: Account, phase: Phase, seen: Account, held: bool, status: Status,
                wins: seq<string>, released: map<nat, int>): World
  {
    World({}, map["a" := Blob(status, true, 0, Known), "b" := Blob(status, true, 0, Known)], map[0 := account],
          [Request(0, "a", 6, phase, seen, held), Request(0, "b", 6, phase, seen, held)],
          wins, map[0 := 6], released)
  }

  function Asked(): World { Both(Account(6, 0), Started, Account(6, 0), false, Initialized, [], map[]) }

  function Taken(): World { Both(Account(6, 0), HasBlob, Account(6, 0), false, Locked, ["a", "b"], map[]) }

  function Charged(phase: Phase): World {
    Both(Account(0, 6), phase, Account(0, 6), true, Locked, ["a", "b"], map[])
  }

  const EACH: seq<Action> := [Advance(0, true), Advance(1, true)]

  lemma BothTake()
    ensures Run(Asked(), EACH) == Some(Taken())
  {
    RunTwo(Asked(), EACH[0], EACH[1], Taken());
  }

  lemma BothCharge()
    ensures Run(Taken(), EACH) == Some(Charged(Debited)) && Run(Charged(Debited), EACH) == Some(Charged(Delivered))
  {
    RunTwo(Taken(), EACH[0], EACH[1], Charged(Debited));
    RunTwo(Charged(Debited), EACH[0], EACH[1], Charged(Delivered));
  }

  lemma BothRelease() returns (v: World)
    ensures Run(Charged(Delivered), EACH) == Some(v)
    ensures v.accounts == map[0 := Account(0, 0)] && Get(v.released, 0) == 12 && Get(v.granted, 0) == 6
  {
    var w := Charged(Delivered);
    v := Next(Next(w, EACH[0]).value, EACH[1]).value;
    RunTwo(w, EACH[0], EACH[1], v);
  }

  /** Two overlapping requests of one account, each of which read it before the other committed: twelve
      months are released for six creddits. */
  lemma OverlapLosesADebit() returns (w: World, schedule: seq<Action>)
    ensures Start(w) && w.accounts == map[0 := Account(6, 0)] && Run(w, schedule).Some?
    ensures var v := Run(w, schedule).value;
      v.accounts == map[0 := Account(0, 0)] && Get(v.released, 0) == 12 && !Balanced(v, 0)
  {
    w := Asked().(requests := []);
    var ask := [Open(0, "a", 6), Open(0, "b", 6)];
    RunTwo(w, ask[0], ask[1], Asked());
    BothTake();
    BothCharge();
    var v := BothRelease();
    schedule := ask + EACH + EACH + EACH + EACH;
    RunSplit(w, ask, EACH);
    RunSplit(w, ask + EACH, EACH);
    RunSplit(w, ask + EACH + EACH, EACH);
    RunSplit(w, ask + EACH + EACH + EACH, EACH);
  }
}
