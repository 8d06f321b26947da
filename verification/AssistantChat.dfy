/** A chat as its functions update it in place, one call at a time. */
module AssistantChat {
  import opened Options
  import opened TurnLog
  import opened TurnSafety

  datatype Role = User | Assistant

  datatype Message = Message(role: Role, turn: nat)

  // The messages of turns, a question and an answer each.
  function Messages(turns: seq<Turn>): (r: seq<Message>)
    ensures |r| == 2 * |turns|
    ensures forall i :: 0 <= i < |turns| ==> r[2 * i] == Message(User, turns[i].id)
    ensures forall i :: 0 <= i < |turns| ==> r[2 * i + 1] == Message(Assistant, turns[i].id)
  {
    if turns == [] then []
    else
      var n := |turns| - 1;
      Messages(turns[..n]) + [Message(User, turns[n].id), Message(Assistant, turns[n].id)]
  }

  // The text of a new summary: what the previous one covers, then the folded turns.
  method Fold(previous: seq<nat>, older: seq<Turn>) returns (covers: seq<nat>)
    ensures covers == previous + Ids(older)
  {
    covers := previous;
    for i := 0 to |older|
      invariant covers == previous + Ids(older[..i])
    {
      assert older[..i + 1][..i] == older[..i];
      covers := covers + [older[i].id];
    }
    assert older[..|older|] == older;
  }

  class StoredChat {
    const limits: Limits
    var turns: seq<Turn>
    var summaries: seq<Summary>
    var nextId: nat

    function View(): Chat
      reads this
    {
      Chat(turns, summaries, nextId, [])
    }

    ghost predicate Valid()
      reads this
    {
      ValidLimits(limits) && Inv(View())
    }

    constructor (limits: Limits)
      requires ValidLimits(limits)
      ensures Valid() && View() == EMPTY && this.limits == limits
    {
      this.limits := limits;
      turns, summaries, nextId := [], [], 0;
    }

    /** Every live turn whose heartbeat is missing or too old becomes interrupted; with `everything`, every live one. */
    method ReconcileInterrupted(now: int, everything: bool)
      requires Valid()
      modifies this`turns
      ensures Valid() && View() == Apply(limits, old(View()), Reconcile(now, everything))
      ensures |turns| == |old(turns)|
      ensures forall i :: 0 <= i < |turns| ==>
                turns[i] == if old(turns)[i].state == Generating && (everything || !Alive(limits, old(turns)[i], now))
                            then old(turns)[i].(state := Interrupted) else old(turns)[i]
    {
      StepKeepsInv(limits, View(), Reconcile(now, everything));
      ghost var before := turns;
      var i := 0;
      while i < |turns|
        invariant 0 <= i <= |turns| == |before|
        invariant forall k :: 0 <= k < i ==> turns[k] == Reconciled(limits, before[k], now, everything)
        invariant forall k :: i <= k < |turns| ==> turns[k] == before[k]
        invariant summaries == old(summaries) && nextId == old(nextId)
      {
        if turns[i].state.Generating? && (everything || Stale(limits, turns[i], now)) {
          turns := turns[i := turns[i].(state := Interrupted)];
        }
        i := i + 1;
      }
      assert turns == ReconcileAll(limits, before, now, everything);
    }

    method HeartBeat(i: nat, now: int)
      requires Valid() && i < |turns| && turns[i].stage.Running?
      modifies this`turns
      ensures Valid() && View() == Apply(limits, old(View()), Beat(i, now))
      ensures turns == old(turns)[i := if old(turns)[i].state == Generating then old(turns)[i].(heartbeat := Some(now))
                                       else old(turns)[i]]
    {
      StepKeepsInv(limits, View(), Beat(i, now));
      var t := turns[i];
      if t.state.Generating? { t := t.(heartbeat := Some(now)); }
      turns := turns[i := t];
    }

    /** A chat with a live turn accepts no other; otherwise the new turn takes the next sequence. */
    method CreateTurn(now: int) returns (created: Option<Turn>)
      requires Valid()
      modifies this`turns, this`nextId
      ensures Valid()
      ensures created.None? <==> AnyGenerating(old(turns))
      ensures created.None? ==> View() == old(View())
      ensures created.Some? ==> View() == Apply(limits, old(View()), Create(now))
                                && created.value == NewTurn(old(View()), now)
                                && forall t :: t in old(turns) ==> t.sequence < created.value.sequence
      ensures created.Some? ==> turns == old(turns) + [created.value] && created.value.state == Generating
                                && created.value.heartbeat == Some(now) && created.value.id == old(nextId)
                                && Follows(created.value.sequence, old(turns))
    {
      if AnyGenerating(turns) { return None; }
      NewTurnIsNewest(View(), now);
      NextIsFree(turns);
      StepKeepsInv(limits, View(), Create(now));
      var t := Turn(nextId, MaxSequence(turns) + 1, Generating, Some(now), Starting);
      turns := turns + [t];
      nextId := nextId + 1;
      return Some(t);
    }

    /** Only a live turn is finished; a runner that comes too late changes nothing. */
    method FinishTurn(i: nat, state: TurnState) returns (finished: bool)
      requires Valid() && i < |turns| && turns[i].stage.Running? && !state.Generating? && !state.Interrupted?
      modifies this`turns
      ensures Valid() && View() == Apply(limits, old(View()), Finish(i, state))
      ensures finished == old(turns)[i].state.Generating?
      ensures turns == old(turns)[i := old(turns)[i].(stage := Over,
                                   state := if finished then state else old(turns)[i].state)]
    {
      StepKeepsInv(limits, View(), Finish(i, state));
      finished := turns[i].state.Generating?;
      var t := turns[i].(stage := Over);
      if finished { t := t.(state := state); }
      turns := turns[i := t];
    }

    /** Question and answer of every completed turn above the latest summary, in order, and of no other. */
    method BuildHistory() returns (rows: seq<Message>)
      requires Valid()
      ensures rows == Messages(History(View()))
    {
      var above := CompletedAbove(turns, Cutoff(Latest(summaries)));
      rows := [];
      var i := 0;
      while i < |above|
        invariant 0 <= i <= |above|
        invariant rows == Messages(above[..i])
      {
        assert above[..i + 1][..i] == above[..i];
        rows := rows + [Message(User, above[i].id), Message(Assistant, above[i].id)];
        i := i + 1;
      }
      assert above[..i] == above;
    }

    /** Compaction of an over-long context: the older turns above the latest summary are folded into a new one that
        stands for exactly the completed turns up to its cutoff. */
    method SummarizeIfNeeded(overLimit: bool) returns (made: Option<Summary>)
      requires Valid()
      modifies this`summaries
      ensures Valid()
      ensures made.Some? <==> overLimit && |old(History(View()))| > limits.keep
      ensures made.None? ==> summaries == old(summaries)
      ensures made.Some? ==> summaries == old(summaries) + [made.value] && Latest(summaries) == made
                             && Faithful(turns, made.value) && |History(View())| == limits.keep
    {
      var previous := Latest(summaries);
      var above := CompletedAbove(turns, Cutoff(previous));
      assert above == History(View());
      if |above| <= limits.keep || !overLimit { return None; }
      var older := above[..|above| - limits.keep];
      var covers := Fold(Covers(previous), older);
      var z := Summary(older[|older| - 1].sequence, covers);
      FoldingIsSound(limits, View(), z);
      ghost var after := View().(summaries := summaries + [z]);
      summaries := summaries + [z];
      assert View() == after;
      made := Some(z);
    }
  }

  // The first sequence is 1, and each further one comes right after one that is there.
  ghost predicate Follows(sequence: nat, turns: seq<Turn>) {
    if turns == [] then sequence == 1 else exists i :: 0 <= i < |turns| && turns[i].sequence + 1 == sequence
  }

  lemma {:induction false} NextIsFree(turns: seq<Turn>)
    ensures Follows(MaxSequence(turns) + 1, turns)
  {
    if |turns| == 1 {
      assert turns[..0] == [] && turns[0].sequence + 1 == MaxSequence(turns) + 1;
    } else if turns != [] {
      var n := |turns| - 1;
      NextIsFree(turns[..n]);
      var i :| 0 <= i < n && turns[..n][i].sequence + 1 == MaxSequence(turns[..n]) + 1;
      assert turns[if turns[n].sequence >= turns[i].sequence then n else i].sequence + 1 == MaxSequence(turns) + 1;
    }
  }

  lemma NewTurnIsNewest(c: Chat, now: int)
    requires TurnInv(c)
    ensures forall t :: t in c.turns ==> t.sequence < NewTurn(c, now).sequence
  {
    MaxSequenceIsLast(c.turns);
  }

  lemma LatestOfAppended(summaries: seq<Summary>, z: Summary)
    requires forall y :: y in summaries ==> y.upTo < z.upTo
    ensures Latest(summaries + [z]) == Some(z)
  {
    assert (summaries + [z])[..|summaries|] == summaries;
  }

  lemma NewerSummaryKeepsInv(c: Chat, z: Summary)
    requires Inv(c) && Faithful(c.turns, z) && forall y :: y in c.summaries ==> y.upTo < z.upTo
    ensures Inv(c.(summaries := c.summaries + [z]))
  {
    var c' := c.(summaries := c.summaries + [z]);
    forall w | w in c'.summarizers ensures SoundSummarizer(c', w) { assert SoundSummarizer(c, w); }
  }

  /** Storing the folded turns as a summary keeps every summary faithful and leaves the kept turns as history. */
  lemma FoldingIsSound(l: Limits, c: Chat, z: Summary)
    requires ValidLimits(l) && Inv(c) && |History(c)| > l.keep
    requires z == NewSummary(Latest(c.summaries), ToFold(l, History(c)))
    ensures var c' := c.(summaries := c.summaries + [z]);
            Inv(c') && Latest(c'.summaries) == Some(z) && Faithful(c.turns, z) && |History(c')| == l.keep
  {
    var previous, above := Latest(c.summaries), History(c);
    var n := |above| - l.keep;
    FoldIsFaithful(l, c, previous);
    AboveAreCompleted(c.turns, Cutoff(previous));
    assert above[n - 1] in above;
    LatestOfAppended(c.summaries, z);
    NewerSummaryKeepsInv(c, z);
    RestAbove(c.turns, Cutoff(previous), n);
  }

  /** Above the new cutoff remain exactly the turns that were kept. */
  lemma RestAbove(turns: seq<Turn>, lo: nat, n: nat)
    requires OrderedTurns(turns) && 0 < n <= |CompletedAbove(turns, lo)|
    ensures CompletedAbove(turns, CompletedAbove(turns, lo)[n - 1].sequence) == CompletedAbove(turns, lo)[n..]
  {
    var above := CompletedAbove(turns, lo);
    var hi := above[n - 1].sequence;
    var up := CompletedUpTo(turns, lo);
    FoldPrefix(turns, lo, n);
    SplitAt(turns, lo);
    SplitAt(turns, hi);
    assert above == above[..n] + above[n..];
    assert up + above == (up + above[..n]) + above[n..];
    var all := CompletedAbove(turns, 0);
    assert CompletedAbove(turns, hi) == all[|up + above[..n]|..] == above[n..];
  }
}
