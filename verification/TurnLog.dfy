/** One chat's turns and summaries, and the atomic steps that change them.

    A turn's runner may be slow, stalled, or overtaken: its turn can be declared interrupted while it still runs, and a
    newer turn can start. A summary is made in three steps, reading the latest summary, reading the turns above it, and
    storing the result; any number of such attempts interleave with everything else. */
module TurnLog {
  import opened Options
  import opened Sums

  datatype TurnState = Generating | Completed | Failed | Cancelled | Interrupted

  // Where the turn's runner is: between creating the turn and the limit check, running, or done.
  datatype Stage = Starting | Running | Over

  datatype Turn = Turn(id: nat, sequence: nat, state: TurnState, heartbeat: Option<int>, stage: Stage)

  // `covers`: the turns whose text went into this summary, directly or through the summary it continues.
  datatype Summary = Summary(upTo: nat, covers: seq<nat>)

  datatype Summarizer =
    | Based(previous: Option<Summary>)
    | Folding(previous: Option<Summary>, turns: seq<Turn>)   // the turns to fold into the new summary

  datatype Chat = Chat(turns: seq<Turn>, summaries: seq<Summary>, nextId: nat, summarizers: seq<Summarizer>)

  datatype Step =
    | Create(now: int)
    | PassLimits(i: nat)
    | OverLimit(i: nat)
    | Beat(i: nat, now: int)
    | Finish(i: nat, state: TurnState)
    | Reconcile(now: int, everything: bool)
    | ReadLatest
    | ReadTurns(k: nat)
    | Store(k: nat)
    | GiveUp(k: nat)

  datatype Limits = Limits(staleAfter: nat, keep: nat)

  ghost predicate ValidLimits(l: Limits) { 1 <= l.staleAfter && 1 <= l.keep }

  // ----- Queries -----

  function MaxSequence(turns: seq<Turn>): nat {
    if turns == [] then 0 else Max(MaxSequence(turns[..|turns| - 1]), turns[|turns| - 1].sequence)
  }

  predicate AnyGenerating(turns: seq<Turn>) { exists i :: 0 <= i < |turns| && turns[i].state.Generating? }

  // The completed turns with above < sequence, in table order.
  function CompletedAbove(turns: seq<Turn>, above: nat): seq<Turn> {
    if turns == [] then []
    else
      var n := |turns| - 1;
      CompletedAbove(turns[..n], above)
        + if turns[n].state.Completed? && turns[n].sequence > above then [turns[n]] else []
  }

  function Latest(summaries: seq<Summary>): (r: Option<Summary>)
    ensures r.None? <==> summaries == []
    ensures r.Some? ==> r.value in summaries && forall z :: z in summaries ==> z.upTo <= r.value.upTo
  {
    if summaries == [] then None
    else
      var n := |summaries| - 1;
      var earlier := Latest(summaries[..n]);
      if earlier.Some? && earlier.value.upTo >= summaries[n].upTo then earlier else Some(summaries[n])
  }

  function Cutoff(z: Option<Summary>): nat { if z.Some? then z.value.upTo else 0 }

  function Covers(z: Option<Summary>): seq<nat> { if z.Some? then z.value.covers else [] }

  function Ids(turns: seq<Turn>): seq<nat> {
    if turns == [] then [] else Ids(turns[..|turns| - 1]) + [turns[|turns| - 1].id]
  }

  /** What the provider is sent besides the latest summary. */
  function History(c: Chat): seq<Turn> { CompletedAbove(c.turns, Cutoff(Latest(c.summaries))) }

  predicate HasCutoff(summaries: seq<Summary>, upTo: nat) {
    exists i :: 0 <= i < |summaries| && summaries[i].upTo == upTo
  }

  // ----- Steps -----

  predicate Stale(l: Limits, t: Turn, now: int) { t.heartbeat.None? || t.heartbeat.value < now - l.staleAfter }

  predicate Enabled(l: Limits, c: Chat, step: Step) {
    match step
    case Create(_) => !AnyGenerating(c.turns)
    case PassLimits(i) => i < |c.turns| && c.turns[i].stage.Starting?
    case OverLimit(i) => i < |c.turns| && c.turns[i].stage.Starting?
    case Beat(i, _) => i < |c.turns| && c.turns[i].stage.Running?
    case Finish(i, state) => i < |c.turns| && c.turns[i].stage.Running? && !state.Generating? && !state.Interrupted?
    case Reconcile(_, _) => true
    case ReadLatest => true
    case ReadTurns(k) => k < |c.summarizers| && c.summarizers[k].Based?
    case Store(k) => k < |c.summarizers| && c.summarizers[k].Folding? && c.summarizers[k].turns != []
    case GiveUp(k) => k < |c.summarizers|
  }

  function NewTurn(c: Chat, now: int): Turn {
    Turn(c.nextId, MaxSequence(c.turns) + 1, Generating, Some(now), Starting)
  }

  // Late runners find their turn terminal and leave it alone.
  function Beaten(t: Turn, now: int): Turn { if t.state.Generating? then t.(heartbeat := Some(now)) else t }

  function Finished(t: Turn, state: TurnState): Turn {
    (if t.state.Generating? then t.(state := state) else t).(stage := Over)
  }

  function Reconciled(l: Limits, t: Turn, now: int, everything: bool): Turn {
    if t.state.Generating? && (everything || Stale(l, t, now)) then t.(state := Interrupted) else t
  }

  function ReconcileAll(l: Limits, turns: seq<Turn>, now: int, everything: bool): (r: seq<Turn>)
    ensures |r| == |turns|
    ensures forall i :: 0 <= i < |turns| ==> r[i] == Reconciled(l, turns[i], now, everything)
  {
    if turns == [] then []
    else ReconcileAll(l, turns[..|turns| - 1], now, everything) + [Reconciled(l, turns[|turns| - 1], now, everything)]
  }

  /** Reconciling interrupts exactly the live turns that have given no sign of life for longer than the limit, or all
      live ones if asked to; it touches nothing else. */
  lemma ReconcileIsExact(l: Limits, c: Chat, now: int, everything: bool, i: nat)
    requires i < |c.turns|
    ensures var before, after := c.turns[i], Apply(l, c, Reconcile(now, everything)).turns;
            && |after| == |c.turns|
            && (before.state != Generating ==> after[i] == before)
            && (before.state == Generating && (everything || !Alive(l, before, now)) ==>
                  after[i] == before.(state := Interrupted))
            && (before.state == Generating && !everything && Alive(l, before, now) ==> after[i] == before)
    ensures Apply(l, c, Reconcile(now, everything)) == c.(turns := Apply(l, c, Reconcile(now, everything)).turns)
  {
  }

  // The last sign of life is recent enough.
  predicate Alive(l: Limits, t: Turn, now: int) { t.heartbeat.Some? && now - t.heartbeat.value <= l.staleAfter }

  /** A turn is not interrupted within the limit after its creation or any of its heartbeats, as long as it runs. */
  lemma HealthyTurnsSurvive(l: Limits, c: Chat, at: int, now: int)
    requires Enabled(l, c, Create(at)) && now - at <= l.staleAfter
    ensures var created := Apply(l, c, Create(at));
            Apply(l, created, Reconcile(now, false)).turns[|c.turns|] == created.turns[|c.turns|]
            && created.turns[|c.turns|].state == Generating
  {
  }

  lemma BeatingTurnsSurvive(l: Limits, c: Chat, i: nat, at: int, now: int)
    requires Enabled(l, c, Beat(i, at)) && c.turns[i].state == Generating && now - at <= l.staleAfter
    ensures var beaten := Apply(l, c, Beat(i, at));
            Apply(l, beaten, Reconcile(now, false)).turns[i] == c.turns[i].(heartbeat := Some(at))
  {
  }

  // All but the newest `keep` of the turns above the previous summary; nothing when there are not more than that.
  function ToFold(l: Limits, turns: seq<Turn>): seq<Turn> {
    if |turns| <= l.keep then [] else turns[..|turns| - l.keep]
  }

  function NewSummary(previous: Option<Summary>, folded: seq<Turn>): Summary
    requires folded != []
  {
    Summary(folded[|folded| - 1].sequence, Covers(previous) + Ids(folded))
  }

  // The unique cutoff makes a second summary of the same range a no-op.
  function Stored(summaries: seq<Summary>, z: Summary): seq<Summary> {
    if HasCutoff(summaries, z.upTo) then summaries else summaries + [z]
  }

  function Apply(l: Limits, c: Chat, step: Step): Chat
    requires Enabled(l, c, step)
  {
    match step
    case Create(now) => c.(turns := c.turns + [NewTurn(c, now)], nextId := c.nextId + 1)
    case PassLimits(i) => c.(turns := c.turns[i := c.turns[i].(stage := Running)])
    case OverLimit(i) => c.(turns := Without(c.turns, i))
    case Beat(i, now) => c.(turns := c.turns[i := Beaten(c.turns[i], now)])
    case Finish(i, state) => c.(turns := c.turns[i := Finished(c.turns[i], state)])
    case Reconcile(now, everything) => c.(turns := ReconcileAll(l, c.turns, now, everything))
    case ReadLatest => c.(summarizers := c.summarizers + [Based(Latest(c.summaries))])
    case ReadTurns(k) =>
      var previous := c.summarizers[k].previous;
      var fold := ToFold(l, CompletedAbove(c.turns, Cutoff(previous)));
      c.(summarizers := c.summarizers[k := Folding(previous, fold)])
    case Store(k) =>
      var z := NewSummary(c.summarizers[k].previous, c.summarizers[k].turns);
      c.(summaries := Stored(c.summaries, z), summarizers := Without(c.summarizers, k))
    case GiveUp(k) => c.(summarizers := Without(c.summarizers, k))
  }

  function Run(l: Limits, c: Chat, steps: seq<Step>): Option<Chat>
    decreases |steps|
  {
    if steps == [] then Some(c)
    else if Enabled(l, c, steps[0]) then Run(l, Apply(l, c, steps[0]), steps[1..])
    else None
  }

  const EMPTY := Chat([], [], 0, [])
}
