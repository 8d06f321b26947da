/** What every run of a chat keeps: one live turn at most, terminal turns that stay as they are, and summaries that
    stand for exactly the completed turns up to their cutoff. */
module TurnSafety {
  import opened Options
  import opened Sums
  import opened TurnLog

  // ----- Turns -----

  ghost predicate OrderedTurns(turns: seq<Turn>) {
    && (forall i :: 0 <= i < |turns| ==> 1 <= turns[i].sequence)
    && (forall i, j :: 0 <= i < j < |turns| ==> turns[i].sequence < turns[j].sequence && turns[i].id != turns[j].id)
  }

  /** A live turn is the newest, and a completed one has passed the limit check. */
  ghost predicate TurnInv(c: Chat) {
    && OrderedTurns(c.turns)
    && (forall i :: 0 <= i < |c.turns| ==>
          && c.turns[i].id < c.nextId
          && (c.turns[i].state.Generating? ==> i == |c.turns| - 1)
          && (c.turns[i].state.Completed? ==> !c.turns[i].stage.Starting?))
  }

  lemma {:induction false} MaxSequenceIsLast(turns: seq<Turn>)
    requires OrderedTurns(turns)
    ensures MaxSequence(turns) == if turns == [] then 0 else turns[|turns| - 1].sequence
  {
    if turns != [] { MaxSequenceIsLast(turns[..|turns| - 1]); }
  }

  lemma CreateKeepsTurns(l: Limits, c: Chat, now: int)
    requires TurnInv(c) && Enabled(l, c, Create(now))
    ensures TurnInv(Apply(l, c, Create(now)))
  {
    MaxSequenceIsLast(c.turns);
  }

  lemma RemovalKeepsTurns(l: Limits, c: Chat, k: nat)
    requires TurnInv(c) && Enabled(l, c, OverLimit(k))
    ensures TurnInv(Apply(l, c, OverLimit(k)))
  {
  }

  lemma StepKeepsTurns(l: Limits, c: Chat, step: Step)
    requires TurnInv(c) && Enabled(l, c, step)
    ensures TurnInv(Apply(l, c, step))
  {
    if step.Create? {
      CreateKeepsTurns(l, c, step.now);
    } else if step.OverLimit? {
      RemovalKeepsTurns(l, c, step.i);
    }
  }

  // ----- Completed turns up to a sequence -----

  function CompletedUpTo(turns: seq<Turn>, hi: nat): seq<Turn> {
    if turns == [] then []
    else
      var n := |turns| - 1;
      CompletedUpTo(turns[..n], hi) + if turns[n].state.Completed? && turns[n].sequence <= hi then [turns[n]] else []
  }

  lemma {:induction false} IdsConcat(a: seq<Turn>, b: seq<Turn>)
    ensures Ids(a + b) == Ids(a) + Ids(b)
  {
    if b == [] {
      assert a + b == a;
    } else {
      IdsConcat(a, b[..|b| - 1]);
      assert (a + b)[..|a + b| - 1] == a + b[..|b| - 1];
    }
  }

  lemma {:induction false} NothingAbove(turns: seq<Turn>, lo: nat)
    requires forall i :: 0 <= i < |turns| ==> turns[i].sequence <= lo
    ensures CompletedAbove(turns, lo) == []
  {
    if turns != [] { NothingAbove(turns[..|turns| - 1], lo); }
  }

  /** The completed turns are those up to any sequence, followed by those above it. */
  lemma {:induction false} SplitAt(turns: seq<Turn>, lo: nat)
    requires OrderedTurns(turns)
    ensures CompletedUpTo(turns, lo) + CompletedAbove(turns, lo) == CompletedAbove(turns, 0)
  {
    if turns != [] {
      var n := |turns| - 1;
      SplitAt(turns[..n], lo);
      var up, above := CompletedUpTo(turns[..n], lo), CompletedAbove(turns[..n], lo);
      var all := CompletedAbove(turns[..n], 0);
      var x := if turns[n].state.Completed? then [turns[n]] else [];
      assert CompletedAbove(turns, 0) == all + x;
      if turns[n].sequence <= lo {
        NothingAbove(turns, lo);
        NothingAbove(turns[..n], lo);
        assert CompletedUpTo(turns, lo) == up + x;
        assert up + [] == up && up + x + [] == up + x;
      } else {
        assert CompletedUpTo(turns, lo) == up + [] == up;
        assert CompletedAbove(turns, lo) == above + x;
        assert up + (above + x) == up + above + x;
      }
    }
  }

  lemma {:induction false} NothingUpToZero(turns: seq<Turn>)
    requires OrderedTurns(turns)
    ensures CompletedUpTo(turns, 0) == []
  {
    if turns != [] { NothingUpToZero(turns[..|turns| - 1]); }
  }

  lemma {:induction false} AboveAreCompleted(turns: seq<Turn>, lo: nat)
    ensures forall x :: x in CompletedAbove(turns, lo) ==> x in turns && x.state.Completed? && x.sequence > lo
  {
    if turns != [] { AboveAreCompleted(turns[..|turns| - 1], lo); }
  }

  lemma UpToTheLast(turns: seq<Turn>, lo: nat)
    requires OrderedTurns(turns) && turns != []
    ensures CompletedUpTo(turns, turns[|turns| - 1].sequence) == CompletedUpTo(turns, lo) + CompletedAbove(turns, lo)
  {
    SplitAt(turns, lo);
    SplitAt(turns, turns[|turns| - 1].sequence);
    NothingAbove(turns, turns[|turns| - 1].sequence);
  }

  lemma LastOfCompleted(turns: seq<Turn>, hi: nat)
    requires turns != []
    ensures var n := |turns| - 1;
            CompletedUpTo(turns, hi)
            == CompletedUpTo(turns[..n], hi)
               + if turns[n].state.Completed? && turns[n].sequence <= hi then [turns[n]] else []
  {
  }

  /** Taking the oldest n turns above a cutoff is moving the cutoff to the last of them. */
  lemma {:induction false} FoldPrefix(turns: seq<Turn>, lo: nat, n: nat)
    requires OrderedTurns(turns) && 0 < n <= |CompletedAbove(turns, lo)|
    ensures var above := CompletedAbove(turns, lo);
            CompletedUpTo(turns, above[n - 1].sequence) == CompletedUpTo(turns, lo) + above[..n]
  {
    var m := |turns| - 1;
    var above, before := CompletedAbove(turns, lo), CompletedAbove(turns[..m], lo);
    AboveAreCompleted(turns, lo);
    if n <= |before| {
      FoldPrefix(turns[..m], lo, n);
      AboveAreCompleted(turns[..m], lo);
      assert before[n - 1] in before && above[n - 1] == before[n - 1];
      assert above[..n] == before[..n];
      var hi := before[n - 1].sequence;
      assert lo < hi < turns[m].sequence;
      LastOfCompleted(turns, hi);
      LastOfCompleted(turns, lo);
      assert CompletedUpTo(turns, hi) == CompletedUpTo(turns[..m], hi);
      assert CompletedUpTo(turns, lo) == CompletedUpTo(turns[..m], lo);
    } else {
      assert above == before + [turns[m]] && above[..n] == above;
      UpToTheLast(turns, lo);
    }
  }

  // ----- Stability -----

  // The table changed only in ways that completed nothing and lost nothing completed up to hi.
  lemma {:induction false} SameCompleted(turns: seq<Turn>, turns': seq<Turn>, hi: nat)
    requires |turns| == |turns'|
    requires forall i :: 0 <= i < |turns| ==>
               && turns'[i].id == turns[i].id && turns'[i].sequence == turns[i].sequence
               && (turns[i].sequence <= hi ==> turns'[i].state.Completed? == turns[i].state.Completed?)
    ensures Ids(CompletedUpTo(turns', hi)) == Ids(CompletedUpTo(turns, hi))
  {
    if turns != [] {
      var n := |turns| - 1;
      SameCompleted(turns[..n], turns'[..n], hi);
      var counts := turns[n].state.Completed? && turns[n].sequence <= hi;
      IdsConcat(CompletedUpTo(turns[..n], hi), if counts then [turns[n]] else []);
      IdsConcat(CompletedUpTo(turns'[..n], hi), if counts then [turns'[n]] else []);
    }
  }

  lemma {:induction false} WithoutUncompleted(turns: seq<Turn>, i: nat, hi: nat)
    requires i < |turns| && !turns[i].state.Completed?
    ensures CompletedUpTo(Without(turns, i), hi) == CompletedUpTo(turns, hi)
  {
    var n, rest := |turns| - 1, Without(turns, i);
    if i == n {
      assert rest == turns[..n];
      assert CompletedUpTo(turns, hi) == CompletedUpTo(turns[..n], hi) + [];
    } else {
      WithoutUncompleted(turns[..n], i, hi);
      assert rest[..n - 1] == Without(turns[..n], i) && rest[n - 1] == turns[n];
      LastOfCompleted(rest, hi);
      LastOfCompleted(turns, hi);
    }
  }

  // ----- Summaries -----

  ghost predicate IsCutoff(turns: seq<Turn>, upTo: nat) {
    exists i :: 0 <= i < |turns| && turns[i].state.Completed? && turns[i].sequence == upTo
  }

  /** The summary stands for exactly the completed turns up to its cutoff, each once and in order. */
  ghost predicate Faithful(turns: seq<Turn>, z: Summary) {
    IsCutoff(turns, z.upTo) && z.covers == Ids(CompletedUpTo(turns, z.upTo))
  }

  ghost predicate Known(c: Chat, z: Option<Summary>) { z.Some? ==> z.value in c.summaries }

  ghost predicate SoundSummarizer(c: Chat, w: Summarizer) {
    && Known(c, w.previous)
    && (w.Folding? && w.turns != [] ==> Faithful(c.turns, NewSummary(w.previous, w.turns)))
  }

  ghost predicate Inv(c: Chat) {
    && TurnInv(c)
    && (forall z :: z in c.summaries ==> Faithful(c.turns, z))
    && (forall i, j :: 0 <= i < j < |c.summaries| ==> c.summaries[i].upTo != c.summaries[j].upTo)
    && (forall w :: w in c.summarizers ==> SoundSummarizer(c, w))
  }

  lemma CreateKeepsFaithful(c: Chat, now: int, z: Summary)
    requires TurnInv(c) && Faithful(c.turns, z)
    ensures Faithful(c.turns + [NewTurn(c, now)], z)
  {
    var t := NewTurn(c, now);
    var i :| 0 <= i < |c.turns| && c.turns[i].state.Completed? && c.turns[i].sequence == z.upTo;
    MaxSequenceIsLast(c.turns);
    assert (c.turns + [t])[i] == c.turns[i];
    assert (c.turns + [t])[..|c.turns|] == c.turns;
    var before := CompletedUpTo(c.turns, z.upTo);
    assert CompletedUpTo(c.turns + [t], z.upTo) == before + [] == before;
  }

  lemma DeleteKeepsFaithful(turns: seq<Turn>, k: nat, z: Summary)
    requires k < |turns| && !turns[k].state.Completed? && Faithful(turns, z)
    ensures Faithful(Without(turns, k), z)
  {
    var i :| 0 <= i < |turns| && turns[i].state.Completed? && turns[i].sequence == z.upTo;
    WithoutUncompleted(turns, k, z.upTo);
    assert Without(turns, k)[if i < k then i else i - 1] == turns[i];
  }

  // A live turn is newer than any completed one, so changing it cannot touch what a summary covers.
  lemma ChangeKeepsFaithful(c: Chat, turns': seq<Turn>, z: Summary)
    requires TurnInv(c) && Faithful(c.turns, z) && |turns'| == |c.turns|
    requires forall i :: 0 <= i < |turns'| ==>
               && turns'[i].id == c.turns[i].id && turns'[i].sequence == c.turns[i].sequence
               && (c.turns[i].state.Generating? || turns'[i].state == c.turns[i].state)
    ensures Faithful(turns', z)
  {
    var i :| 0 <= i < |c.turns| && c.turns[i].state.Completed? && c.turns[i].sequence == z.upTo;
    assert turns'[i].state.Completed? && turns'[i].sequence == z.upTo;
    SameCompleted(c.turns, turns', z.upTo);
  }

  /** Nothing at or below a cutoff is live: its completed turns are final, and no step loses one. */
  lemma StepKeepsFaithful(l: Limits, c: Chat, step: Step, z: Summary)
    requires TurnInv(c) && Enabled(l, c, step) && Faithful(c.turns, z)
    ensures Faithful(Apply(l, c, step).turns, z)
  {
    if step.Create? {
      CreateKeepsFaithful(c, step.now, z);
    } else if step.OverLimit? {
      DeleteKeepsFaithful(c.turns, step.i, z);
    } else {
      ChangeKeepsFaithful(c, Apply(l, c, step).turns, z);
    }
  }

  lemma FoldIsFaithful(l: Limits, c: Chat, previous: Option<Summary>)
    requires Inv(c) && Known(c, previous) && ValidLimits(l)
    requires ToFold(l, CompletedAbove(c.turns, Cutoff(previous))) != []
    ensures Faithful(c.turns, NewSummary(previous, ToFold(l, CompletedAbove(c.turns, Cutoff(previous)))))
  {
    var lo := Cutoff(previous);
    var above := CompletedAbove(c.turns, lo);
    var fold := ToFold(l, above);
    FoldPrefix(c.turns, lo, |fold|);
    IdsConcat(CompletedUpTo(c.turns, lo), fold);
    AboveAreCompleted(c.turns, lo);
    var last := fold[|fold| - 1];
    assert last == above[|fold| - 1] && last in above;
    NothingUpToZero(c.turns);
  }

  lemma StepKeepsInv(l: Limits, c: Chat, step: Step)
    requires ValidLimits(l) && Inv(c) && Enabled(l, c, step)
    ensures Inv(Apply(l, c, step))
  {
    var c' := Apply(l, c, step);
    StepKeepsTurns(l, c, step);
    forall z | z in c'.summaries ensures Faithful(c'.turns, z) {
      if z !in c.summaries {
        assert SoundSummarizer(c, c.summarizers[step.k]);
      } else {
        StepKeepsFaithful(l, c, step, z);
      }
    }
    forall w | w in c'.summarizers ensures SoundSummarizer(c', w) {
      if w in c.summarizers {
        assert SoundSummarizer(c, w);
        if w.Folding? && w.turns != [] { StepKeepsFaithful(l, c, step, NewSummary(w.previous, w.turns)); }
      } else if step.ReadTurns? {
        assert w == c'.summarizers[step.k];
        assert SoundSummarizer(c, c.summarizers[step.k]);
        if w.turns != [] { FoldIsFaithful(l, c, w.previous); }
      }
    }
  }

  // ----- Theorems over all runs -----

  lemma {:induction false} RunKeepsInv(l: Limits, c: Chat, steps: seq<Step>, d: Chat)
    requires ValidLimits(l) && Inv(c) && Run(l, c, steps) == Some(d)
    ensures Inv(d)
    decreases |steps|
  {
    if steps != [] {
      StepKeepsInv(l, c, steps[0]);
      RunKeepsInv(l, Apply(l, c, steps[0]), steps[1..], d);
    }
  }

  /** At most one turn is live, it has the highest sequence, and sequences are unique. */
  lemma OneLiveTurn(l: Limits, steps: seq<Step>, c: Chat)
    requires ValidLimits(l) && Run(l, EMPTY, steps) == Some(c)
    ensures forall i, j :: 0 <= i < |c.turns| && 0 <= j < |c.turns| && i != j ==>
              && c.turns[i].sequence != c.turns[j].sequence
              && (c.turns[i].state.Generating? ==>
                  !c.turns[j].state.Generating? && c.turns[j].sequence < c.turns[i].sequence)
  {
    RunKeepsInv(l, EMPTY, steps, c);
  }

  /** The summary partition: what the latest summary covers, followed by the history sent beside it, is exactly the
      completed turns in order; neither leaves one out or repeats one. */
  lemma SummaryPartition(l: Limits, steps: seq<Step>, c: Chat)
    requires ValidLimits(l) && Run(l, EMPTY, steps) == Some(c)
    ensures Covers(Latest(c.summaries)) + Ids(History(c)) == Ids(CompletedAbove(c.turns, 0))
    ensures forall z :: z in c.summaries ==> z.covers == Ids(CompletedUpTo(c.turns, z.upTo))
    ensures forall x ::
              x in History(c) <==> x in c.turns && x.state.Completed? && x.sequence > Cutoff(Latest(c.summaries))
    ensures forall i, j :: 0 <= i < j < |Ids(CompletedAbove(c.turns, 0))| ==>
              Ids(CompletedAbove(c.turns, 0))[i] != Ids(CompletedAbove(c.turns, 0))[j]
  {
    RunKeepsInv(l, EMPTY, steps, c);
    var lo := Cutoff(Latest(c.summaries));
    SplitAt(c.turns, lo);
    IdsConcat(CompletedUpTo(c.turns, lo), CompletedAbove(c.turns, lo));
    NothingUpToZero(c.turns);
    AboveIsExact(c.turns, lo);
    DistinctIds(c.turns);
  }

  lemma {:induction false} AboveIsExact(turns: seq<Turn>, lo: nat)
    ensures forall x :: x in CompletedAbove(turns, lo) <==> x in turns && x.state.Completed? && x.sequence > lo
  {
    if turns != [] {
      AboveIsExact(turns[..|turns| - 1], lo);
      assert turns == turns[..|turns| - 1] + [turns[|turns| - 1]];
    }
  }

  lemma {:induction false} IdsOf(turns: seq<Turn>)
    ensures |Ids(turns)| == |turns| && forall i :: 0 <= i < |turns| ==> Ids(turns)[i] == turns[i].id
  {
    if turns != [] { IdsOf(turns[..|turns| - 1]); }
  }

  ghost predicate DistinctTurns(turns: seq<Turn>) {
    forall i, j :: 0 <= i < j < |turns| ==> turns[i].id != turns[j].id
  }

  lemma {:induction false} AboveAreDistinct(turns: seq<Turn>, lo: nat)
    requires OrderedTurns(turns)
    ensures DistinctTurns(CompletedAbove(turns, lo))
  {
    if turns != [] {
      var n := |turns| - 1;
      var before := CompletedAbove(turns[..n], lo);
      AboveAreDistinct(turns[..n], lo);
      assert DistinctTurns(before);
      AboveAreCompleted(turns[..n], lo);
      forall i | 0 <= i < |before| ensures before[i].id != turns[n].id {
        assert before[i] in before;
        var m :| 0 <= m < n && turns[..n][m] == before[i];
      }
      var above := CompletedAbove(turns, lo);
      forall i, j | 0 <= i < j < |above| ensures above[i].id != above[j].id {
        assert above[i] == before[i];
        if j < |before| {
          assert above[j] == before[j] && before[i].id != before[j].id;
        } else {
          assert above[j] == turns[n];
        }
      }
    }
  }

  lemma DistinctIds(turns: seq<Turn>)
    requires OrderedTurns(turns)
    ensures var ids := Ids(CompletedAbove(turns, 0));
            forall i, j :: 0 <= i < j < |ids| ==> ids[i] != ids[j]
  {
    AboveAreDistinct(turns, 0);
    IdsOf(CompletedAbove(turns, 0));
  }

  lemma StepKeepsTerminal(l: Limits, c: Chat, step: Step, i: nat, k: nat)
    requires TurnInv(c) && Enabled(l, c, step)
    requires i < |c.turns| && !c.turns[i].state.Generating?
    requires k < |Apply(l, c, step).turns| && Apply(l, c, step).turns[k].id == c.turns[i].id
    ensures Apply(l, c, step).turns[k].state == c.turns[i].state
    ensures Apply(l, c, step).turns[k].sequence == c.turns[i].sequence
  {
    var before := if step.OverLimit? && k >= step.i then k + 1 else k;
    if before < |c.turns| { assert Apply(l, c, step).turns[k].id == c.turns[before].id; }
  }

  /** A terminal turn stays exactly as it ended, whatever its runner or anybody else does later. */
  lemma {:induction false} TerminalIsFinal(l: Limits, c: Chat, steps: seq<Step>, d: Chat, i: nat, j: nat)
    requires ValidLimits(l) && Inv(c) && Run(l, c, steps) == Some(d)
    requires i < |c.turns| && !c.turns[i].state.Generating? && j < |d.turns| && d.turns[j].id == c.turns[i].id
    ensures d.turns[j].state == c.turns[i].state && d.turns[j].sequence == c.turns[i].sequence
    decreases |steps|
  {
    if steps != [] {
      var c1 := Apply(l, c, steps[0]);
      StepKeepsInv(l, c, steps[0]);
      if k :| 0 <= k < |c1.turns| && c1.turns[k].id == c.turns[i].id {
        StepKeepsTerminal(l, c, steps[0], i, k);
        TerminalIsFinal(l, c1, steps[1..], d, k, j);
      } else {
        GoneIsGone(l, c1, steps[1..], d, c.turns[i].id);
      }
    }
  }

  /** Ids are never reused: a deleted turn does not come back. */
  lemma {:induction false} GoneIsGone(l: Limits, c: Chat, steps: seq<Step>, d: Chat, id: nat)
    requires ValidLimits(l) && Inv(c) && Run(l, c, steps) == Some(d)
    requires id < c.nextId && forall k :: 0 <= k < |c.turns| ==> c.turns[k].id != id
    ensures forall k :: 0 <= k < |d.turns| ==> d.turns[k].id != id
    decreases |steps|
  {
    if steps != [] {
      StepKeepsInv(l, c, steps[0]);
      GoneIsGone(l, Apply(l, c, steps[0]), steps[1..], d, id);
    }
  }

  /** No turn at or below a cutoff completes later: what a summary stands for never changes. */
  lemma {:induction false} NothingCompletesBelowACutoff(l: Limits, c: Chat, steps: seq<Step>, d: Chat, z: Summary)
    requires ValidLimits(l) && Inv(c) && Run(l, c, steps) == Some(d) && z in c.summaries
    ensures z in d.summaries
    ensures Ids(CompletedUpTo(d.turns, z.upTo)) == Ids(CompletedUpTo(c.turns, z.upTo)) == z.covers
    decreases |steps|
  {
    if steps != [] {
      StepKeepsInv(l, c, steps[0]);
      NothingCompletesBelowACutoff(l, Apply(l, c, steps[0]), steps[1..], d, z);
    }
  }
}
