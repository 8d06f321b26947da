/** What a turn's prompt is made of: the latest summary, read first, and the history, read afterwards. */
module TurnPrompt {
  import opened Options
  import opened TurnLog
  import opened TurnSafety

  /** A prompt whose first read found `z` (or no summary yet) and whose history is read in `c` is complete exactly when
      no newer summary was stored in between; otherwise the turns between the two cutoffs are in neither. */
  lemma PromptIsCompleteExactly(c: Chat, z: Option<Summary>)
    requires Inv(c) && Known(c, z)
    ensures Covers(z) + Ids(History(c)) == Ids(CompletedAbove(c.turns, 0)) <==> Latest(c.summaries) == z
  {
    var latest := Latest(c.summaries);
    var lo, hi := Cutoff(z), Cutoff(latest);
    SplitAt(c.turns, hi);
    IdsConcat(CompletedUpTo(c.turns, hi), History(c));
    NothingUpToZero(c.turns);
    assert latest.Some? ==> Faithful(c.turns, latest.value);
    assert z.Some? ==> Faithful(c.turns, z.value);
    if lo != hi {
      StrictlyMoreUpTo(c.turns, lo, hi);
    } else if latest.Some? {
      CutoffsArePositive(c.turns, latest.value);
      var a :| 0 <= a < |c.summaries| && c.summaries[a] == z.value;
      var b :| 0 <= b < |c.summaries| && c.summaries[b] == latest.value;
      assert a == b;
    }
  }

  lemma CutoffsArePositive(turns: seq<Turn>, z: Summary)
    requires OrderedTurns(turns) && Faithful(turns, z)
    ensures 0 < z.upTo
  {
  }

  lemma {:induction false} StrictlyMoreUpTo(turns: seq<Turn>, lo: nat, hi: nat)
    requires OrderedTurns(turns) && lo < hi && IsCutoff(turns, hi)
    ensures |Ids(CompletedUpTo(turns, lo))| < |Ids(CompletedUpTo(turns, hi))|
  {
    var n := |turns| - 1;
    IdsOf(CompletedUpTo(turns, lo));
    IdsOf(CompletedUpTo(turns, hi));
    var i :| 0 <= i < |turns| && turns[i].state.Completed? && turns[i].sequence == hi;
    if i < n {
      assert turns[..n][i] == turns[i];
      StrictlyMoreUpTo(turns[..n], lo, hi);
      IdsOf(CompletedUpTo(turns[..n], lo));
      IdsOf(CompletedUpTo(turns[..n], hi));
    } else {
      NoMoreUpTo(turns[..n], lo, hi);
    }
  }

  lemma {:induction false} NoMoreUpTo(turns: seq<Turn>, lo: nat, hi: nat)
    requires lo <= hi
    ensures |CompletedUpTo(turns, lo)| <= |CompletedUpTo(turns, hi)|
  {
    if turns != [] { NoMoreUpTo(turns[..|turns| - 1], lo, hi); }
  }

  // ----- A prompt that misses turns -----

  ghost predicate Reached(l: Limits, c: Chat) { exists steps :: Run(l, EMPTY, steps) == Some(c) }

  lemma {:induction false} OneStepMore(l: Limits, c: Chat, steps: seq<Step>, d: Chat, step: Step)
    requires Run(l, c, steps) == Some(d) && Enabled(l, d, step)
    ensures Run(l, c, steps + [step]) == Some(Apply(l, d, step))
    decreases |steps|
  {
    if steps == [] {
      assert [] + [step] == [step] && [step][1..] == [];
    } else {
      var first, rest := steps[0], steps[1..];
      OneStepMore(l, Apply(l, c, first), rest, d, step);
      assert (steps + [step])[0] == first && (steps + [step])[1..] == rest + [step];
    }
  }

  lemma ReachFurther(l: Limits, c: Chat, step: Step) returns (d: Chat)
    requires Reached(l, c) && Enabled(l, c, step)
    ensures d == Apply(l, c, step) && Reached(l, d)
  {
    d := Apply(l, c, step);
    var steps :| Run(l, EMPTY, steps) == Some(c);
    OneStepMore(l, EMPTY, steps, c, step);
  }

  ghost predicate AllCompleted(turns: seq<Turn>) {
    forall i :: 0 <= i < |turns| ==> turns[i].state.Completed? && 1 <= turns[i].sequence
  }

  lemma {:induction false} AllAboveZero(turns: seq<Turn>)
    requires AllCompleted(turns)
    ensures CompletedAbove(turns, 0) == turns
  {
    if turns != [] {
      var n := |turns| - 1;
      AllAboveZero(turns[..n]);
      assert turns == turns[..n] + [turns[n]];
    }
  }

  // A chat of n turns, each completed before the next one started.
  lemma {:induction false} CompletedChat(l: Limits, n: nat) returns (c: Chat)
    ensures Reached(l, c) && |c.turns| == n && AllCompleted(c.turns) && c.summaries == [] && c.summarizers == []
  {
    if n == 0 {
      c := EMPTY;
      assert Run(l, EMPTY, []) == Some(EMPTY);
    } else {
      var before := CompletedChat(l, n - 1);
      var created := ReachFurther(l, before, Create(0));
      var running := ReachFurther(l, created, PassLimits(n - 1));
      c := ReachFurther(l, running, Finish(n - 1, Completed));
    }
  }

  // The next turn is running.
  lemma RunningChat(l: Limits, n: nat, now: int) returns (c: Chat)
    ensures Reached(l, c) && c.summaries == [] && c.summarizers == [] && |c.turns| == n + 1
    ensures AllCompleted(c.turns[..n]) && CompletedAbove(c.turns, 0) == c.turns[..n]
    ensures c.turns[n].state.Generating? && c.turns[n].heartbeat == Some(now)
  {
    var done := CompletedChat(l, n);
    var created := ReachFurther(l, done, Create(now));
    c := ReachFurther(l, created, PassLimits(n));
    assert c.turns[..n] == done.turns;
    AllAboveZero(done.turns);
  }

  // Its runner finds more turns than are kept and sets out to fold the oldest.
  lemma FoldingChat(l: Limits, now: int) returns (c: Chat)
    requires ValidLimits(l)
    ensures Reached(l, c) && c.summaries == [] && |c.turns| == l.keep + 2 && AllCompleted(c.turns[..l.keep + 1])
    ensures c.turns[l.keep + 1].state.Generating? && c.turns[l.keep + 1].heartbeat == Some(now)
    ensures c.summarizers == [Folding(None, c.turns[..1])]
  {
    var running := RunningChat(l, l.keep + 1, now);
    var read := ReachFurther(l, running, ReadLatest);
    assert read.summarizers == [Based(None)];
    c := ReachFurther(l, read, ReadTurns(0));
    assert ToFold(l, running.turns[..l.keep + 1]) == running.turns[..1];
  }

  // The runner stops beating, is declared interrupted, and a new turn starts.
  lemma OvertakenChat(l: Limits, now: int) returns (c: Chat)
    requires ValidLimits(l)
    ensures Reached(l, c) && c.summaries == [] && |c.turns| == l.keep + 3 && AllCompleted(c.turns[..l.keep + 1])
    ensures c.turns[l.keep + 2].state.Generating? && c.turns[l.keep + 2].stage.Running?
    ensures c.summarizers == [Folding(None, c.turns[..1])]
  {
    var folding := FoldingChat(l, now);
    var later := now + l.staleAfter + 1;
    var reconciled := ReachFurther(l, folding, Reconcile(later, false));
    forall i | 0 <= i < l.keep + 1 ensures reconciled.turns[i] == folding.turns[i] {
      assert folding.turns[..l.keep + 1][i].state.Completed?;
    }
    var created := ReachFurther(l, reconciled, Create(later));
    c := ReachFurther(l, created, PassLimits(l.keep + 2));
    assert c.turns[..l.keep + 1] == folding.turns[..l.keep + 1] && c.turns[..1] == folding.turns[..1];
  }

  /** For all limits: a runner is overtaken while it makes a summary. The new turn's runner reads that there is no
      summary, the old one stores its summary, and the new one reads the history; what it sends lacks a completed
      turn. */
  lemma OvertakenRunnerLeavesAGap(l: Limits, now: int) returns (before: Chat, after: Chat)
    requires ValidLimits(l)
    ensures Reached(l, before) && Enabled(l, before, Store(0)) && after == Apply(l, before, Store(0))
    ensures |before.turns| > 1 && before.turns[|before.turns| - 1].state.Generating?
            && before.turns[|before.turns| - 1].stage.Running?
    ensures Latest(before.summaries) == None
    ensures Covers(None) + Ids(History(after)) != Ids(CompletedAbove(after.turns, 0))
    ensures after.turns[0].state.Completed? && after.turns[0] !in History(after)
  {
    before := OvertakenChat(l, now);
    after := ReachFurther(l, before, Store(0));
    assert before.turns[..l.keep + 1][0] == after.turns[0];
    var z := NewSummary(None, before.turns[..1]);
    assert after.summaries == [z] && Latest(after.summaries).Some?;
    AboveAreCompleted(after.turns, z.upTo);
    GapIn(l, after);
  }

  lemma GapIn(l: Limits, c: Chat)
    requires ValidLimits(l) && Reached(l, c) && c.summaries != []
    ensures Covers(None) + Ids(History(c)) != Ids(CompletedAbove(c.turns, 0))
  {
    var steps :| Run(l, EMPTY, steps) == Some(c);
    RunKeepsInv(l, EMPTY, steps, c);
    PromptIsCompleteExactly(c, None);
  }
}
