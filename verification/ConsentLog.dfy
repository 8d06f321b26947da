/** One browser's consent receipt: the current choice per purpose, and the append-only log of decisions. */
module ConsentLog {
  import opened Options

  datatype ChoiceState = Granted | Refused

  datatype DecisionKind = GrantedNow | RefusedNow | WithdrawnNow

  datatype Choice = Choice(revision: nat, state: ChoiceState, effective: int, expires: int)

  datatype Decision = Decision(purpose: string, revision: nat, kind: DecisionKind, seqNo: nat, at: int, request: string)

  datatype Item = Item(purpose: string, revision: nat, state: ChoiceState)

  // `validity`: how long choices last by the manifest the request is handled under.
  datatype Request = Request(id: string, expected: nat, items: seq<Item>, now: int, validity: nat)

  datatype Outcome = Applied | Stale | Idempotent

  datatype Receipt = Receipt(stored: bool, seqNo: nat, choices: map<string, Choice>, decisions: seq<Decision>)

  datatype Reply = Reply(receipt: Receipt, outcome: Outcome)

  const NONE := Receipt(false, 0, map[], [])

  // ----- The request handler -----

  predicate HasGrant(r: Request) { exists i :: 0 <= i < |r.items| && r.items[i].state.Granted? }

  // A request names each purpose once.
  ghost predicate OncePerPurpose(items: seq<Item>) {
    forall i, j :: 0 <= i < j < |items| ==> items[i].purpose != items[j].purpose
  }

  predicate Decided(decisions: seq<Decision>, id: string) {
    exists i :: 0 <= i < |decisions| && decisions[i].request == id
  }

  predicate StandingGrant(choices: map<string, Choice>, item: Item, now: int) {
    && item.purpose in choices && choices[item.purpose].state.Granted?
    && choices[item.purpose].revision == item.revision && choices[item.purpose].expires > now
  }

  function KindOf(choices: map<string, Choice>, item: Item, now: int): DecisionKind {
    if item.state.Granted? then GrantedNow
    else if StandingGrant(choices, item, now) then WithdrawnNow
    else RefusedNow
  }

  function ApplyItem(c: Receipt, r: Request, item: Item): Receipt {
    c.(choices := c.choices[item.purpose := Choice(item.revision, item.state, r.now, r.now + r.validity)],
       decisions := c.decisions
                    + [Decision(item.purpose, item.revision, KindOf(c.choices, item, r.now), c.seqNo, r.now, r.id)])
  }

  // The first n items of the request.
  function ApplyItems(c: Receipt, r: Request, n: nat): Receipt
    requires n <= |r.items|
  {
    if n == 0 then c else ApplyItem(ApplyItems(c, r, n - 1), r, r.items[n - 1])
  }

  function Handle(c: Receipt, r: Request): Reply {
    if !c.stored && HasGrant(r) && r.expected != 0 then Reply(c, Stale)
    else
      var known := c.(stored := true);
      if Decided(known.decisions, r.id) then Reply(known, Idempotent)
      else if HasGrant(r) && r.expected != known.seqNo then Reply(known, Stale)
      else Reply(ApplyItems(known.(seqNo := known.seqNo + 1), r, |r.items|), Applied)
  }

  function Run(c: Receipt, requests: seq<Request>): Receipt
    decreases |requests|
  {
    if requests == [] then c else Run(Handle(c, requests[0]).receipt, requests[1..])
  }

  // How many requests of a run were applied.
  function AppliedCount(c: Receipt, requests: seq<Request>): nat
    decreases |requests|
  {
    if requests == [] then 0
    else (if Handle(c, requests[0]).outcome.Applied? then 1 else 0)
         + AppliedCount(Handle(c, requests[0]).receipt, requests[1..])
  }

  // ----- The log tells the current state -----

  datatype Standing = Standing(revision: nat, state: ChoiceState, effective: int)

  /** What the decisions say about a purpose: the last one counts, a withdrawal is a refusal. */
  function Replay(decisions: seq<Decision>, purpose: string): Option<Standing> {
    if decisions == [] then None
    else
      var d := decisions[|decisions| - 1];
      if d.purpose == purpose then Some(Standing(d.revision, if d.kind.GrantedNow? then Granted else Refused, d.at))
      else Replay(decisions[..|decisions| - 1], purpose)
  }

  function Current(choices: map<string, Choice>, purpose: string): Option<Standing> {
    if purpose in choices
    then Some(Standing(choices[purpose].revision, choices[purpose].state, choices[purpose].effective))
    else None
  }

  ghost predicate LogMatches(c: Receipt) {
    forall p :: Current(c.choices, p) == Replay(c.decisions, p)
  }

  ghost predicate Inv(c: Receipt) {
    && LogMatches(c)
    && (forall i :: 0 <= i < |c.decisions| ==> 1 <= c.decisions[i].seqNo <= c.seqNo)
    && (!c.stored ==> c.seqNo == 0 && c.decisions == [])
  }

  lemma {:induction false} ItemsKeepInv(c: Receipt, r: Request, n: nat)
    requires LogMatches(c) && c.stored && 1 <= c.seqNo && n <= |r.items|
    requires forall i :: 0 <= i < |c.decisions| ==> 1 <= c.decisions[i].seqNo <= c.seqNo
    ensures Inv(ApplyItems(c, r, n)) && ApplyItems(c, r, n).seqNo == c.seqNo && ApplyItems(c, r, n).stored
    ensures |ApplyItems(c, r, n).decisions| == |c.decisions| + n && c.decisions <= ApplyItems(c, r, n).decisions
    ensures forall i :: |c.decisions| <= i < |c.decisions| + n ==> ApplyItems(c, r, n).decisions[i].request == r.id
  {
    if n > 0 {
      ItemsKeepInv(c, r, n - 1);
    }
  }

  lemma HandleKeepsInv(c: Receipt, r: Request)
    requires Inv(c)
    ensures var h := Handle(c, r);
            && Inv(h.receipt) && c.decisions <= h.receipt.decisions
            && h.receipt.seqNo == c.seqNo + (if h.outcome.Applied? then 1 else 0)
            && (!h.outcome.Applied? ==> h.receipt == c.(stored := h.receipt.stored))
            && (h.outcome.Applied? ==> h.receipt.stored && |h.receipt.decisions| == |c.decisions| + |r.items|
                                       && forall i :: |c.decisions| <= i < |h.receipt.decisions| ==>
                                            h.receipt.decisions[i].request == r.id)
  {
    if Handle(c, r).outcome.Applied? {
      ItemsKeepInv(c.(stored := true, seqNo := c.seqNo + 1), r, |r.items|);
    }
  }

  lemma {:induction false} RunKeepsInv(c: Receipt, requests: seq<Request>)
    requires Inv(c)
    ensures Inv(Run(c, requests)) && c.decisions <= Run(c, requests).decisions
    ensures Run(c, requests).seqNo == c.seqNo + AppliedCount(c, requests)
    decreases |requests|
  {
    if requests != [] {
      HandleKeepsInv(c, requests[0]);
      RunKeepsInv(Handle(c, requests[0]).receipt, requests[1..]);
    }
  }

  /** After every run: each purpose's current choice is what replaying the log gives, and the sequence number counts the
      applied requests. */
  lemma ChoicesAreTheReplayedLog(requests: seq<Request>, purpose: string)
    ensures var c := Run(NONE, requests);
            && Current(c.choices, purpose) == Replay(c.decisions, purpose)
            && c.seqNo == AppliedCount(NONE, requests)
  {
    RunKeepsInv(NONE, requests);
  }

  // ----- Withdrawals are recorded exactly -----

  // The purpose was granted in this revision, and the grant is still valid after `now`.
  ghost predicate GrantLasts(c: Receipt, item: Item, now: int) {
    exists effective, expires ::
      && item.purpose in c.choices && now < expires
      && c.choices[item.purpose] == Choice(item.revision, Granted, effective, expires)
  }

  lemma GrantsThatLast(c: Receipt, item: Item, now: int)
    ensures StandingGrant(c.choices, item, now) <==> GrantLasts(c, item, now)
  {
    if StandingGrant(c.choices, item, now) {
      var standing := c.choices[item.purpose];
      assert standing == Choice(item.revision, Granted, standing.effective, standing.expires);
    }
  }

  lemma {:induction false} UntouchedPurpose(c: Receipt, r: Request, n: nat, purpose: string)
    requires n <= |r.items| && forall i :: 0 <= i < n ==> r.items[i].purpose != purpose
    ensures purpose in ApplyItems(c, r, n).choices <==> purpose in c.choices
    ensures purpose in c.choices ==> ApplyItems(c, r, n).choices[purpose] == c.choices[purpose]
  {
    if n > 0 { UntouchedPurpose(c, r, n - 1, purpose); }
  }

  /** The k-th decision of an applied request is marked withdrawn exactly when it refuses a purpose for which, before
      the request, an unexpired grant of the same revision stood; otherwise it repeats the requested state. */
  lemma {:induction false} WithdrawalsAreExact(c: Receipt, r: Request, n: nat, k: nat)
    requires OncePerPurpose(r.items) && k < n <= |r.items|
    ensures var item := r.items[k];
            |ApplyItems(c, r, n).decisions| == |c.decisions| + n
            && ApplyItems(c, r, n).decisions[|c.decisions| + k]
               == Decision(item.purpose, item.revision,
                           if item.state.Granted? then GrantedNow
                           else if GrantLasts(c, item, r.now) then WithdrawnNow else RefusedNow,
                           c.seqNo, r.now, r.id)
  {
    DecisionsGrow(c, r, n - 1);
    if k < n - 1 {
      WithdrawalsAreExact(c, r, n - 1, k);
    } else {
      UntouchedPurpose(c, r, n - 1, r.items[k].purpose);
      GrantsThatLast(c, r.items[k], r.now);
    }
  }

  lemma {:induction false} ItemBecomesChoice(c: Receipt, r: Request, n: nat, k: nat)
    requires OncePerPurpose(r.items) && k < n <= |r.items|
    ensures var item := r.items[k];
            && item.purpose in ApplyItems(c, r, n).choices
            && ApplyItems(c, r, n).choices[item.purpose] == Choice(item.revision, item.state, r.now, r.now + r.validity)
  {
    if k < n - 1 { ItemBecomesChoice(c, r, n - 1, k); }
  }

  /** What an applied request leaves behind, item by item: the new choice, and one decision under the new sequence
      number. */
  lemma AppliedRequestIsRecorded(c: Receipt, r: Request, k: nat)
    requires OncePerPurpose(r.items) && k < |r.items| && Handle(c, r).outcome.Applied?
    ensures var item, after := r.items[k], Handle(c, r).receipt;
            && item.purpose in after.choices
            && after.choices[item.purpose] == Choice(item.revision, item.state, r.now, r.now + r.validity)
            && |after.decisions| == |c.decisions| + |r.items|
            && after.decisions[|c.decisions| + k]
               == Decision(item.purpose, item.revision,
                           if item.state.Granted? then GrantedNow
                           else if GrantLasts(c, item, r.now) then WithdrawnNow else RefusedNow,
                           c.seqNo + 1, r.now, r.id)
  {
    var started := c.(stored := true, seqNo := c.seqNo + 1);
    assert GrantLasts(started, r.items[k], r.now) <==> GrantLasts(c, r.items[k], r.now);
    WithdrawalsAreExact(started, r, |r.items|, k);
    ItemBecomesChoice(started, r, |r.items|, k);
  }

  lemma {:induction false} DecisionsGrow(c: Receipt, r: Request, n: nat)
    requires n <= |r.items|
    ensures |ApplyItems(c, r, n).decisions| == |c.decisions| + n && ApplyItems(c, r, n).seqNo == c.seqNo
  {
    if n > 0 { DecisionsGrow(c, r, n - 1); }
  }

  // ----- Which requests are applied -----

  /** A request that was decided before is idempotent; of the others, exactly the grants prepared against another state
      than the current one are stale, and all the rest is applied. Only a stale grant from a visitor without a receipt
      leaves none behind. */
  lemma OutcomesAreExact(c: Receipt, r: Request)
    requires Inv(c)
    ensures var h := Handle(c, r);
            var decided := exists i :: 0 <= i < |c.decisions| && c.decisions[i].request == r.id;
            var granting := exists i :: 0 <= i < |r.items| && r.items[i].state == Granted;
            && (h.outcome == Idempotent <==> decided)
            && (h.outcome == Stale <==> !decided && granting && r.expected != c.seqNo)
            && (h.outcome == Applied <==> !decided && (granting ==> r.expected == c.seqNo))
            && (h.receipt.stored <==> c.stored || !granting || r.expected == 0)
  {
    if Handle(c, r).outcome.Applied? { ItemsKeepInv(c.(stored := true, seqNo := c.seqNo + 1), r, |r.items|); }
  }

  // ----- Retries -----

  /** An applied request is remembered exactly if it decided something; the endpoint refuses empty requests. */
  lemma RememberedExactly(c: Receipt, r: Request)
    requires Inv(c) && Handle(c, r).outcome.Applied?
    ensures Decided(Handle(c, r).receipt.decisions, r.id) <==> r.items != []
  {
    HandleKeepsInv(c, r);
    var after := Handle(c, r).receipt.decisions;
    if r.items != [] {
      assert after[|c.decisions|].request == r.id;
    } else {
      assert after == c.decisions;
    }
  }

  /** Retrying an applied request, at any later time and however often, changes nothing. */
  lemma RetryChangesNothing(c: Receipt, r: Request, between: seq<Request>, again: Request)
    requires Inv(c) && Handle(c, r).outcome.Applied? && r.items != [] && again.id == r.id
    ensures var later := Run(Handle(c, r).receipt, between);
            Handle(later, again) == Reply(later, Idempotent)
  {
    HandleKeepsInv(c, r);
    RememberedExactly(c, r);
    var h := Handle(c, r).receipt;
    RunKeepsInv(h, between);
    var i :| 0 <= i < |h.decisions| && h.decisions[i].request == r.id;
    assert Run(h, between).decisions[i].request == r.id;
  }

  // ----- Old grants -----

  /** A grant prepared against the state before some applied request (a refusal, say) is never applied after it. */
  lemma OldGrantIsNeverApplied(c: Receipt, r: Request, between: seq<Request>, grant: Request)
    requires Inv(c) && Handle(c, r).outcome.Applied?
    requires HasGrant(grant) && grant.expected <= c.seqNo
    ensures !Handle(Run(Handle(c, r).receipt, between), grant).outcome.Applied?
  {
    HandleKeepsInv(c, r);
    RunKeepsInv(Handle(c, r).receipt, between);
  }

  /** A refusal, on the other hand, applies whatever its sender had seen. */
  lemma RefusalAlwaysApplies(c: Receipt, r: Request)
    requires !HasGrant(r) && !Decided(c.decisions, r.id)
    ensures Handle(c, r).outcome.Applied?
    ensures Handle(c, r.(expected := 0)).receipt == Handle(c, r).receipt
  {
    var zero := r.(expected := 0);
    assert !HasGrant(zero) by {
      forall i | 0 <= i < |zero.items| ensures !zero.items[i].state.Granted? { assert r.items[i] == zero.items[i]; }
    }
    SameItems(c.(stored := true, seqNo := c.seqNo + 1), r, zero, |r.items|);
  }

  lemma {:induction false} SameItems(c: Receipt, r: Request, q: Request, n: nat)
    requires q == r.(expected := q.expected) && n <= |r.items|
    ensures ApplyItems(c, q, n) == ApplyItems(c, r, n)
  {
    if n > 0 { SameItems(c, r, q, n - 1); }
  }

  /** The handler as it updates receipt, choices, and decisions in place. */
  class Store {
    var found: bool
    var seqNo: nat
    var choices: map<string, Choice>
    var decisions: seq<Decision>

    function View(): Receipt
      reads this
    {
      Receipt(found, seqNo, choices, decisions)
    }

    constructor ()
      ensures View() == NONE
    {
      found, seqNo, choices, decisions := false, 0, map[], [];
    }

    method ApplyChoiceRequest(r: Request) returns (outcome: Outcome)
      modifies this
      ensures Reply(View(), outcome) == Handle(old(View()), r)
    {
      var hasGrant := HasGrant(r);
      if !found {
        if hasGrant && r.expected != 0 { return Stale; }
        found := true;
      }
      if Decided(decisions, r.id) { return Idempotent; }
      if hasGrant && r.expected != seqNo { return Stale; }
      seqNo := seqNo + 1;
      ghost var started := View();
      var expires, i := r.now + r.validity, 0;
      while i < |r.items|
        invariant 0 <= i <= |r.items|
        invariant View() == ApplyItems(started, r, i)
      {
        var item := r.items[i];
        var active := item.purpose in choices && choices[item.purpose].state.Granted?
                      && choices[item.purpose].revision == item.revision && choices[item.purpose].expires > r.now;
        var kind := if item.state.Refused? && active then WithdrawnNow
                    else if item.state.Granted? then GrantedNow else RefusedNow;
        choices := choices[item.purpose := Choice(item.revision, item.state, r.now, expires)];
        decisions := decisions + [Decision(item.purpose, item.revision, kind, seqNo, r.now, r.id)];
        i := i + 1;
      }
      return Applied;
    }
  }
}
