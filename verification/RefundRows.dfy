/** The refund rows of one contract payment, as the local transactions change them. */
module RefundRows {
  import opened Options
  import opened Sums

  datatype Status = Pending | Requested | RequiresAction | Succeeded | Failed | Cancelled

  // Why the last attempt did not succeed; only a definitive provider failure is retried with a fresh row.
  datatype ErrorCode = NoError | RefundFailed | ReferenceMissing | ProviderUnreachable

  // `known`: the row carries the provider's refund id.
  datatype Row = Row(declaration: nat, amount: int, status: Status, known: bool, error: ErrorCode, attempts: nat)

  datatype RemoteStatus = RemoteSucceeded | RemotePending | RemoteFailed | RemoteRequiresAction | RemoteOther

  // What one call of the provider brought back. An error may hide an acceptance.
  datatype Answer = Result(status: RemoteStatus) | Unreachable

  // A row and the change of the payment's refunded total that goes with it.
  datatype Effect = Effect(row: Row, counted: int)

  function FromRemote(r: RemoteStatus): Status {
    match r
    case RemoteSucceeded => Succeeded
    case RemotePending => Requested
    case RemoteFailed => Failed
    case RemoteRequiresAction => RequiresAction
    case RemoteOther => Requested
  }

  predicate Replaced(st: Status) { st.Succeeded? || st.Cancelled? }

  predicate Open(st: Status) { st.Pending? || st.Requested? || st.RequiresAction? }

  /** First transaction of an attempt. */
  function Begin(r: Row): Row {
    if Replaced(r.status) then r else r.(attempts := r.attempts + 1, status := Pending, error := NoError)
  }

  /** A payment without a payment reference is never sent to the provider. */
  function MissReference(r: Row): Row {
    if r.status.Succeeded? then r else r.(status := Failed, error := ReferenceMissing)
  }

  /** Second transaction of an attempt: only `Succeeded` is guarded, a cancelled row takes the answer like any other. */
  function Finish(r: Row, a: Answer): Effect {
    if r.status.Succeeded? then Effect(r, 0)
    else
      match a
      case Unreachable => Effect(r.(status := Pending, error := ProviderUnreachable), 0)
      case Result(remote) =>
        var next := FromRemote(remote);
        Effect(r.(status := next, known := true, error := if next.Failed? then RefundFailed else NoError),
               if next.Succeeded? then r.amount else 0)
  }

  /** A validated refund event of `amount` cents. */
  function Complete(r: Row, remote: RemoteStatus, amount: int): Effect {
    var next := FromRemote(remote);
    if Replaced(r.status) then Effect(r, 0)
    else if r.status.Failed? && (next.Requested? || next.RequiresAction?) then Effect(r, 0)
    else Effect(r.(status := next, known := true, error := if next.Failed? then RefundFailed else NoError),
                if next.Succeeded? then amount else 0)
  }

  // The provider's id, the amount and the count of attempts are not the answer's business.
  ghost predicate KeepsTerms(before: Row, after: Row) {
    after.declaration == before.declaration && after.amount == before.amount && after.attempts == before.attempts
  }

  /** An answer ends an attempt: a succeeded row stays; any other succeeds, fails, or asks for an action exactly if the
      provider says so, is pending again exactly if no answer came, and is requested otherwise. Only a new success is
      counted, with its amount, and only an answer brings the provider's id. */
  lemma AnswersAreTaken(r: Row, a: Answer)
    ensures var e := Finish(r, a);
            && KeepsTerms(r, e.row)
            && (r.status == Succeeded ==> e == Effect(r, 0))
            && (r.status != Succeeded ==>
                  && (e.row.status == Succeeded <==> a == Result(RemoteSucceeded))
                  && (e.row.status == Failed <==> a == Result(RemoteFailed))
                  && (e.row.status == RequiresAction <==> a == Result(RemoteRequiresAction))
                  && (e.row.status == Pending <==> a == Unreachable) && e.row.status != Cancelled
                  && (e.row.known <==> r.known || a != Unreachable)
                  && (e.row.error == RefundFailed <==> e.row.status == Failed)
                  && (e.row.error == ProviderUnreachable <==> e.row.status == Pending)
                  && e.row.error != ReferenceMissing
                  && e.counted == if e.row.status == Succeeded then r.amount else 0)
  {
  }

  /** An event moves a row like an answer, with three exceptions: a row that succeeded or was cancelled stays, a failed
      row stays unless the event is final, and what is counted is the event's amount. */
  lemma EventsAreTaken(r: Row, remote: RemoteStatus, amount: int)
    ensures var e, done := Complete(r, remote, amount), r.status == Succeeded || r.status == Cancelled;
            var final := remote == RemoteSucceeded || remote == RemoteFailed;
            && KeepsTerms(r, e.row)
            && (done || (r.status == Failed && !final) ==> e == Effect(r, 0))
            && (!done && (r.status != Failed || final) ==>
                  e.row == Finish(r, Result(remote)).row
                  && e.counted == if remote == RemoteSucceeded then amount else 0)
  {
  }

  /** A charge raises the refunded total to its figure less our own open rows, never above what was paid, and never
      lowers it; without a figure it changes nothing. */
  lemma ReconciledIsExact(paid: int, refunded: int, charged: int, openOurs: int)
    ensures var after := Reconciled(paid, refunded, charged, openOurs);
            && refunded <= after && (charged <= 0 ==> after == refunded)
            && (refunded < after ==> after <= paid && after + openOurs <= charged)
            && (0 < charged ==> paid <= after || charged - openOurs <= after)
  {
  }

  /** A definitively failed request is replaced by a fresh row. */
  predicate Replaceable(r: Row) { r.status.Failed? && r.error.RefundFailed? }

  // Our own rows that are inside the provider's total but not counted here yet.
  function OpenCents(r: Row): int { if Open(r.status) && r.known then r.amount else 0 }

  function OpenFn(): Row -> int { (r: Row) => OpenCents(r) }

  /** The refunded total after a look at a charge: it only grows, and never past what was paid. */
  function Reconciled(paid: int, refunded: int, charged: int, openOurs: int): int {
    if charged <= 0 then refunded else Max(refunded, Min(paid, charged - openOurs))
  }

  /** The amount of a new row: what is left of the payment, at most what was asked for. */
  function RowAmount(paid: int, refunded: int, override: Option<int>): int {
    var left := Max(0, paid - refunded);
    match override
    case None => left
    case Some(v) => Min(left, Max(0, v))
  }

  /** A positive amount within what is left and what was asked for, equal to one of the two. */
  predicate IsMost(left: int, asked: Option<int>, amount: int) {
    && 0 < amount <= left && (asked.Some? ==> amount <= asked.value)
    && (amount == left || asked == Some(amount))
  }

  /** The amount of a new row is the most there is, and nothing exactly if nothing is left or nothing was asked for. */
  lemma AmountIsMost(paid: int, refunded: int, override: Option<int>)
    ensures RowAmount(paid, refunded, override) == 0 <==> paid <= refunded || (override.Some? && override.value <= 0)
    ensures RowAmount(paid, refunded, override) != 0 ==>
              IsMost(paid - refunded, override, RowAmount(paid, refunded, override))
  {
  }

  // The declaration's row that is neither counted nor replaced, if there is one: the first in the table.
  function UnfinishedRow(rows: seq<Row>, declaration: nat): (r: Option<nat>)
    ensures r.Some? ==> r.value < |rows| && rows[r.value].declaration == declaration && !Replaced(rows[r.value].status)
    ensures r.None? ==> forall i :: 0 <= i < |rows| && rows[i].declaration == declaration ==> Replaced(rows[i].status)
    ensures r.Some? ==> forall i :: 0 <= i < r.value && rows[i].declaration == declaration ==> Replaced(rows[i].status)
  {
    if rows == [] then None
    else
      var n := |rows| - 1;
      var earlier := UnfinishedRow(rows[..n], declaration);
      if earlier.Some? then earlier
      else if rows[n].declaration == declaration && !Replaced(rows[n].status) then Some(n)
      else None
  }

  // A refund object as the provider reports it, with the checks the handler makes on it already evaluated.
  datatype RefundData = RefundData(key: Option<nat>, sameApp: bool, sameContract: bool, samePaymentIntent: bool,
                                   amount: Option<int>, sameCurrency: bool, status: Option<RemoteStatus>)

  class PaymentRefunds {
    const paid: nat
    const hasIntent: bool
    var refunded: int
    var rows: seq<Row>

    constructor (paid: nat, hasIntent: bool)
      ensures this.paid == paid && this.hasIntent == hasIntent && refunded == 0 && rows == []
    {
      this.paid, this.hasIntent := paid, hasIntent;
      refunded, rows := 0, [];
    }

    /** The first transaction commits a fresh attempt, or stops at a row that is done. */
    method StartAttempt(i: nat) returns (go: bool)
      requires i < |rows|
      modifies this`rows
      ensures go == !Replaced(old(rows)[i].status)
      ensures rows == old(rows)[i := Begin(old(rows)[i])]
    {
      go := !Replaced(rows[i].status);
      if go {
        rows := rows[i := rows[i].(attempts := rows[i].attempts + 1, status := Pending, error := NoError)];
      }
    }

    /** The second transaction: the answer is applied to the row as it stands by now. */
    method EndAttempt(i: nat, a: Answer)
      requires i < |rows|
      modifies this`rows, this`refunded
      ensures var e := Finish(old(rows)[i], a);
              rows == old(rows)[i := e.row] && refunded == old(refunded) + e.counted
    {
      var r := rows[i];
      if !r.status.Succeeded? {
        var next := if a.Unreachable? then Pending else FromRemote(a.status);
        if next.Succeeded? { refunded := refunded + r.amount; }
        var error := if a.Unreachable? then ProviderUnreachable else if next.Failed? then RefundFailed else NoError;
        rows := rows[i := r.(status := next, known := r.known || a.Result?, error := error)];
      }
    }

    method EndWithoutReference(i: nat)
      requires i < |rows| && !hasIntent
      modifies this`rows
      ensures rows == old(rows)[i := MissReference(old(rows)[i])]
    {
      if !rows[i].status.Succeeded? { rows := rows[i := rows[i].(error := ReferenceMissing, status := Failed)]; }
    }

    /** A refund event changes exactly the row its key names, and only if every check passes. */
    method CompleteContractRefund(data: RefundData, failedEvent: bool) returns (handled: bool)
      modifies this`rows, this`refunded
      ensures handled == (data.key.Some? && data.key.value < |old(rows)| && data.sameApp && data.sameContract
                          && data.samePaymentIntent && data.sameCurrency
                          && data.amount.Some? && 0 < data.amount.value <= old(rows)[data.key.value].amount)
      ensures !handled ==> rows == old(rows) && refunded == old(refunded)
      ensures handled ==>
                var i, default := data.key.value, if failedEvent then RemoteFailed else RemotePending;
                var remote := if data.status.Some? then data.status.value else default;
                var e := Complete(old(rows)[i], remote, data.amount.value);
                rows == old(rows)[i := e.row] && refunded == old(refunded) + e.counted
    {
      if data.key.None? { return false; }
      var i := data.key.value;
      if i >= |rows| || !data.sameApp || !data.sameContract || !data.samePaymentIntent { return false; }
      var r := rows[i];
      if data.amount.None? || data.amount.value <= 0 || data.amount.value > r.amount { return false; }
      if !data.sameCurrency { return false; }
      if Replaced(r.status) { return true; }
      var remote :=
        if data.status.Some? then data.status.value
        else if failedEvent then RemoteFailed
        else RemotePending;
      var next := FromRemote(remote);
      if r.status.Failed? && (next.Requested? || next.RequiresAction?) { return true; }
      if next.Succeeded? { refunded := refunded + data.amount.value; }
      rows := rows[i := r.(status := next, known := true, error := if next.Failed? then RefundFailed else NoError)];
      return true;
    }

    /** Refunds made at the provider itself are reflected by the charge's total less our own open rows. */
    method ReconcileProviderRefunds(charged: int)
      modifies this`refunded
      ensures refunded == Reconciled(paid, old(refunded), charged, Sum(rows, OpenFn()))
    {
      if charged <= 0 { return; }
      var openOurs, i := 0, 0;
      while i < |rows|
        invariant 0 <= i <= |rows|
        invariant openOurs == Sum(rows[..i], OpenFn())
        invariant refunded == old(refunded)
      {
        assert rows[..i + 1] == rows[..i] + [rows[i]];
        SumAppend(rows[..i], rows[i], OpenFn());
        if !Replaced(rows[i].status) && !rows[i].status.Failed? && rows[i].known {
          openOurs := openOurs + rows[i].amount;
        }
        i := i + 1;
      }
      assert rows[..i] == rows;
      var foreign := Min(paid, charged - openOurs);
      if foreign > refunded { refunded := foreign; }
    }

    /** One unfinished row per declaration, and no second open row for the payment. */
    method RefundRow(declaration: nat, seen: int, override: Option<int>) returns (row: Option<nat>)
      modifies this`rows
      ensures row.Some? ==> row.value < |rows| && rows[row.value].declaration == declaration
                            && !Replaced(rows[row.value].status)
      ensures var amount, before := RowAmount(paid, seen, override), UnfinishedRow(old(rows), declaration);
              if amount == 0 then row == None && rows == old(rows)
              else if before.Some? then row == before && rows == old(rows)
              else if exists i :: 0 <= i < |old(rows)| && Open(old(rows)[i].status)
                   then row == None && rows == old(rows)
              else row == Some(|old(rows)|)
                   && rows == old(rows) + [Row(declaration, amount, Pending, false, NoError, 0)]
      // a fresh row asks for the most that neither the rest of the payment nor the override forbids
      ensures row == Some(|old(rows)|) ==> IsMost(paid - seen, override, rows[|old(rows)|].amount)
      ensures (forall i :: 0 <= i < |old(rows)| ==> !Open(old(rows)[i].status))
              && UnfinishedRow(old(rows), declaration).None?
              ==> (row.None? <==> paid <= seen || (override.Some? && override.value <= 0))
    {
      AmountIsMost(paid, seen, override);
      var amount := RowAmount(paid, seen, override);
      if amount == 0 { return None; }
      row := UnfinishedRow(rows, declaration);
      if row.Some? { return; }
      if exists i :: 0 <= i < |rows| && Open(rows[i].status) { return None; }  // the unique constraint on open rows
      rows := rows + [Row(declaration, amount, Pending, false, NoError, 0)];
      return Some(|rows| - 1);
    }

    /** Retrying: a definitively failed row is cancelled, and the attempt goes to a row of the same declaration that is
        still unfinished, fresh if need be, for at most the cancelled amount; any other row is tried again itself. */
    method RowToRetry(i: nat) returns (target: Option<nat>)
      requires i < |rows|
      modifies this`rows
      ensures !Replaceable(old(rows)[i]) ==> rows == old(rows) && target == Some(i)
      ensures Replaceable(old(rows)[i]) ==>
                var cancelled := old(rows)[i := old(rows)[i].(status := Cancelled)];
                var amount := RowAmount(paid, refunded, Some(old(rows)[i].amount));
                var unfinished := UnfinishedRow(cancelled, cancelled[i].declaration);
                && (target.Some? ==> target.value != i)
                && if amount == 0 then target == None && rows == cancelled
                   else if unfinished.Some? then target == unfinished && rows == cancelled
                   else if exists j :: 0 <= j < |cancelled| && Open(cancelled[j].status)
                        then target == None && rows == cancelled
                   else target == Some(|cancelled|)
                        && rows == cancelled + [Row(cancelled[i].declaration, amount, Pending, false, NoError, 0)]
      ensures target == Some(|old(rows)|) ==>
                IsMost(paid - refunded, Some(old(rows)[i].amount), rows[|old(rows)|].amount)
    {
      var r := rows[i];
      if !Replaceable(r) { return Some(i); }
      rows := rows[i := r.(status := Cancelled)];
      target := RefundRow(r.declaration, refunded, Some(r.amount));
    }
  }
}
