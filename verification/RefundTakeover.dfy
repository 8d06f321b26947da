/** Taking over the provider's total without a lock: when a refund is counted twice by it, and when one is lost. */
module RefundTakeover {
  import opened Options
  import opened Sums
  import opened RefundRows
  import opened RefundAccounting
  import opened RefundHistories

  // ----- Counting twice -----

  // What loading, asking, and saving at once make of a payment.
  function Taken(s: State): State { if s.hasIntent then s.(refunded := Max(s.refunded, ProviderTotal(s))) else s }

  lemma TakenAtOnce(s: State)
    ensures Exec(s, [Load, Query(|s.reviews|), Save(|s.reviews|)]) == Some(Taken(s))
  {
    var k := |s.reviews|;
    var s1 := Apply(s, Load);
    var s2 := Apply(s1, Query(k));
    var s3 := Apply(s2, Save(k));
    assert s3.reviews == s.reviews;
    assert s3 == Taken(s);
    var steps := [Load, Query(k), Save(k)];
    assert steps[1..] == [Query(k), Save(k)] && steps[1..][1..] == [Save(k)] && steps[1..][1..][1..] == [];
    assert Exec(s3, []) == Some(s3);
    assert Exec(s2, [Save(k)]) == Some(s3);
    assert Exec(s1, [Query(k), Save(k)]) == Some(s3);
  }

  lemma SumOfOne(r: Refund, f: Refund -> int)
    ensures Sum([r], f) == f(r)
  {
    assert [] + [r] == [r];
    SumAppend([], r, f);
  }

  // Accepted by the provider and not counted.
  predicate Uncounted(s: State, i: nat) {
    i < |s.refunds| && s.refunds[i].key.Accepted? && Open(s.refunds[i].row.status)
  }

  /** Taking the total over then, and hearing of the refund's success afterwards, counts it twice: whatever else there
      is, the refunded total ends above the provider's. */
  lemma TakeoverCountsTwice(s: State, i: nat) returns (t: State)
    requires Reachable(s) && 0 <= s.paid && s.hasIntent && Uncounted(s, i)
    ensures var k := |s.reviews|;
            Exec(s, [Load, Query(k), Save(k), RefundEvent(i, RemoteSucceeded)]) == Some(t)
    ensures t.refunded == Max(s.refunded, ProviderTotal(s)) + s.refunds[i].row.amount
    ensures ProviderTotal(t) == ProviderTotal(s) < t.refunded && t.counted == s.counted + [i]
    ensures !Bounded(Taken(s))
  {
    ReachableInv(s);
    assert SoundRefund(s, i);
    UncountedIsNoMore(s, i);
    TakenAtOnce(s);
    var k, taken := |s.reviews|, Taken(s);
    t := Apply(taken, RefundEvent(i, RemoteSucceeded));
    SumUpdate(s.refunds, i, t.refunds[i], AcceptedFn());
    assert Exec(t, []) == Some(t);
    ExecJoins(s, [Load, Query(k), Save(k)], taken, [RefundEvent(i, RemoteSucceeded)], t);
    assert [Load, Query(k), Save(k)] + [RefundEvent(i, RemoteSucceeded)]
           == [Load, Query(k), Save(k), RefundEvent(i, RemoteSucceeded)];
  }

  lemma UncountedIsNoMore(s: State, i: nat)
    requires Inv(s) && Uncounted(s, i)
    ensures s.refunds[i].row.amount <= Sum(s.refunds, UncountedFn())
  {
    forall r | r in s.refunds ensures 0 <= UncountedFn()(r) {
      var k :| 0 <= k < |s.refunds| && s.refunds[k] == r;
      assert SoundRefund(s, k);
    }
    SumTerm(s.refunds, i, UncountedFn());
  }

  lemma {:induction false} ExecJoins(s: State, steps: seq<Step>, t: State, more: seq<Step>, u: State)
    requires Exec(s, steps) == Some(t) && Exec(t, more) == Some(u)
    ensures Exec(s, steps + more) == Some(u)
    decreases |steps|
  {
    if steps == [] {
      assert steps + more == more;
    } else {
      var first, rest := steps[0], steps[1..];
      ExecJoins(Apply(s, first), rest, t, more, u);
      assert (steps + more)[0] == first && (steps + more)[1..] == rest + more;
    }
  }

  // What our side sees of a payment.
  ghost predicate Seen(s: State, paid: nat, refunded: nat, rows: seq<Row>) {
    s.hasIntent && s.paid == paid && s.refunded == refunded && LocalRows(s.refunds) == rows
  }

  /** What the rows of a payment can look like: as their attempts and answers allow, with one open at most; and all but
      the last have been closed once. */
  predicate Left(rows: seq<Row>) {
    && (forall i :: 0 <= i < |rows| ==> Formed(rows[i]))
    && (forall i, j :: 0 <= i < j < |rows| ==> !Open(rows[i].status) || !Open(rows[j].status))
    && (forall i :: 0 <= i < |rows| - 1 ==> rows[i].known && !Asked(rows[i].status))
  }

  // The rows with keys such that the provider has accepted no more than it must have, and the last one if wanted.
  function WithKeys(rows: seq<Row>, last: bool): (refunds: seq<Refund>)
    ensures |refunds| == |rows|
    ensures forall k :: 0 <= k < |rows| ==> refunds[k] == Refund(k, rows[k], KeyOf(rows[k], last && k == |rows| - 1))
  {
    seq(|rows|, k requires 0 <= k < |rows| => Refund(k, rows[k], KeyOf(rows[k], last && k == |rows| - 1)))
  }

  function KeyOf(r: Row, accepted: bool): KeyState {
    if accepted || r.status.Succeeded? || Asked(r.status) then Accepted
    else if r.known then Refused
    else Unused
  }

  lemma KeysFit(rows: seq<Row>, last: bool)
    requires Left(rows) && (last ==> rows != [] && InDoubt(rows[|rows| - 1]))
    ensures Goal(WithKeys(rows, last)) && InTurn(WithKeys(rows, last), true)
  {
  }

  lemma KeysFitThePayment(paid: nat, refunded: nat, rows: seq<Row>)
    requires Left(rows) && MayBeUncounted(paid, refunded, rows)
    ensures Possible(paid, refunded, WithKeys(rows, true))
  {
    var goal, n := WithKeys(rows, true), |rows| - 1;
    SumPointwiseLe(goal[..n], rows[..n], AcceptedFn(), SucceededFn());
    SumZero(goal[..n], UncountedFn());
  }

  /** For all that our side can tell, the provider has accepted the last row: rows, amount paid and amount refunded also
      occur in a state in which it has. */
  lemma AnyDoubtMayBeAccepted(paid: nat, refunded: nat, rows: seq<Row>) returns (s: State)
    requires Left(rows) && MayBeUncounted(paid, refunded, rows)
    ensures Reachable(s) && Seen(s, paid, refunded, rows) && Uncounted(s, |rows| - 1)
  {
    KeysFit(rows, true);
    KeysFitThePayment(paid, refunded, rows);
    s := EverythingOccurs(paid, refunded, WithKeys(rows, true));
  }

  /** For all that our side sees (the amount paid, the amount refunded, and all rows): taking the total over keeps the
      bound in every reachable state that looks like this, exactly if the last row may not be uncounted. */
  lemma TakingTheTotalIsSafeExactly(paid: nat, refunded: nat, rows: seq<Row>)
    requires Left(rows)
    ensures (forall s :: Reachable(s) && Seen(s, paid, refunded, rows) ==> Bounded(Taken(s)))
            <==> !MayBeUncounted(paid, refunded, rows)
  {
    if MayBeUncounted(paid, refunded, rows) {
      var s := AnyDoubtMayBeAccepted(paid, refunded, rows);
      var t := TakeoverCountsTwice(s, |rows| - 1);
    } else {
      forall s | Reachable(s) && Seen(s, paid, refunded, rows) ensures Bounded(Taken(s)) { TakeoverIsSafe(s); }
    }
  }

  lemma LeftOccurs(rows: seq<Row>) returns (s: State)
    requires Left(rows)
    ensures Reachable(s) && 0 <= s.paid && s.hasIntent && LocalRows(s.refunds) == rows
  {
    var goal := WithKeys(rows, false);
    KeysFit(rows, false);
    SumsOfAll(goal);
    s := EverythingOccurs(Sum(goal, AcceptedFn()) + Sum(goal, UncountedFn()), 0, goal);
  }

  /** Rows look like this and not otherwise. */
  lemma RowsLeftExactly(rows: seq<Row>)
    ensures Left(rows)
            <==> exists s: State :: Reachable(s) && 0 <= s.paid && s.hasIntent && LocalRows(s.refunds) == rows
  {
    if Left(rows) { var s := LeftOccurs(rows); }
    forall s: State | Reachable(s) && 0 <= s.paid && s.hasIntent && LocalRows(s.refunds) == rows ensures Left(rows) {
      ReachableInv(s);
      forall i | 0 <= i < |rows|
        ensures Formed(rows[i]) && (i < |rows| - 1 ==> rows[i].known && !Asked(rows[i].status))
      {
        assert SoundRefund(s, i);
      }
    }
  }

  /** Whatever else there is in the state. */
  lemma TakeoverIsSafe(s: State)
    requires Reachable(s) && 0 <= s.paid && !MayBeUncounted(s.paid, s.refunded, LocalRows(s.refunds))
    ensures Bounded(Taken(s)) && (s.hasIntent ==> Taken(s).refunded == ProviderTotal(s))
  {
    ReachableInv(s);
    NoDoubtNothingUncounted(s);
  }

  // ----- Losing a counted refund -----

  // One refund from its row to its success, with nothing in between.
  lemma RefundOnce(s: State, amount: nat) returns (t: State)
    requires Reachable(s) && s.hasIntent && 0 < amount && ProviderTotal(s) + amount <= s.paid
    requires forall i :: 0 <= i < |s.refunds| ==> Replaced(s.refunds[i].row.status)
    ensures Reachable(t)
    ensures t == s.(refunded := s.refunded + amount, attempts := t.attempts, counted := t.counted,
                    refunds := s.refunds + [Refund(|s.refunds|, Row(0, amount, Succeeded, true, NoError, 1), Accepted)])
    ensures Sum(t.refunds, CountedFn()) == Sum(s.refunds, CountedFn()) + amount
  {
    var k := |s.refunds|;
    var r := Refund(k, Row(0, amount, Succeeded, true, NoError, 1), Accepted);
    var created := Created(s, r);
    t := SucceededRow(created, k, r);
    assert t.refunds == s.refunds + [r];
    SumAppend(s.refunds, r, CountedFn());
  }

  // The payment says `refunded`, all of it counted; a lookup from before wants to write `total`.
  predicate Overtaken(s: State, total: int, refunded: int) {
    && s.hasIntent && s.refunded == refunded
    && |s.reviews| == 1 && s.reviews[0].BalanceLookup? && s.reviews[0].total == total
  }

  // Everything refunded so far was ours and counted.
  lemma AllCounted(paid: nat, total: nat) returns (s: State)
    requires total <= paid
    ensures Reachable(s) && s.paid == paid && s.hasIntent && s.reviews == []
    ensures s.refunded == total == Sum(s.refunds, CountedFn()) == ProviderTotal(s)
    ensures forall i :: 0 <= i < |s.refunds| ==> s.refunds[i].row.status.Succeeded?
  {
    StartIsReachable(paid);
    s := Init(paid, true);
    if total > 0 {
      s := RefundOnce(s, total);
      SumOfOne(s.refunds[0], AcceptedFn());
    }
  }

  // And it has just been looked up.
  lemma LookedUp(paid: nat, total: nat) returns (s: State)
    requires total <= paid
    ensures Reachable(s) && s.paid == paid && s.hasIntent && ProviderTotal(s) == total
    ensures forall i :: 0 <= i < |s.refunds| ==> s.refunds[i].row.status.Succeeded?
    ensures s.refunded == total == Sum(s.refunds, CountedFn())
    ensures |s.reviews| == 1 && s.reviews[0].BalanceLookup? && s.reviews[0].total == total
  {
    var before := AllCounted(paid, total);
    var loaded := ReachFurther(before, Load);
    s := ReachFurther(loaded, Query(0));
  }

  lemma LookupOvertaken(paid: nat, total: nat, refunded: nat) returns (s: State)
    requires total < refunded <= paid
    ensures Reachable(s) && s.paid == paid && Overtaken(s, total, refunded) && Sum(s.refunds, CountedFn()) == refunded
  {
    var before := LookedUp(paid, total);
    s := RefundOnce(before, refunded - total);
  }

  /** Writing a looked-up figure loses no counted refund exactly if it does not lower the payment's: then it is safe in
      every reachable state; and for any figures that would lower it there is a reachable state that loses one. */
  lemma SavingIsSafeExactly(paid: nat, total: nat, refunded: nat)
    requires total <= paid && refunded <= paid
    ensures refunded <= total
            <==> forall s :: Reachable(s) && s.paid == paid && Overtaken(s, total, refunded) && KeepsCounted(s) ==>
                   KeepsCounted(Apply(s, Save(0)))
  {
    if total < refunded {
      var s := LookupOvertaken(paid, total, refunded);
      assert !KeepsCounted(Apply(s, Save(0)));
    }
  }
}
