/** The spinlock under interleaving: any number of processors, one atomic access of the lock word per
    step. */
module Spinlock {

  /** Where a processor is: outside, about to load the word, about to exchange it, between `lock` and
      the store of `unlock`, or between that store and `sti`. */
  datatype Place = Outside | Loading | Exchanging | Holding | Leaving

  datatype State = State(word: int, at: seq<Place>, interrupts: seq<bool>)

  ghost predicate Wellformed(s: State) { |s.at| == |s.interrupts| }

  function Start(n: nat): State { State(0, seq(n, _ => Outside), seq(n, _ => true)) }

  /** The next step of processor c.  From outside that is `cli` at the start of `lock`. */
  function Step(s: State, c: nat): State
    requires Wellformed(s) && c < |s.at|
  {
    match s.at[c]
    case Outside => State(s.word, s.at[c := Loading], s.interrupts[c := false])
    case Loading => if s.word != 0 then s else s.(at := s.at[c := Exchanging])
    case Exchanging => s.(word := 1, at := s.at[c := if s.word == 0 then Holding else Loading])
    case Holding => s.(word := 0, at := s.at[c := Leaving])
    case Leaving => State(s.word, s.at[c := Outside], s.interrupts[c := true])
  }

  ghost predicate Held(s: State) { exists c | 0 <= c < |s.at| :: s.at[c] == Holding }

  ghost predicate Inv(s: State) {
    && Wellformed(s)
    && (forall c, d | 0 <= c < |s.at| && 0 <= d < |s.at| && s.at[c] == Holding && s.at[d] == Holding :: c == d)
    && (s.word == 1 <==> Held(s)) && s.word in {0, 1}
    && (forall c | 0 <= c < |s.at| :: s.interrupts[c] <==> s.at[c] == Outside)
  }

  lemma StepKeepsInv(s: State, c: nat)
    requires Inv(s) && c < |s.at|
    ensures Inv(Step(s, c)) && |Step(s, c).at| == |s.at|
  {
    var s' := Step(s, c);
    if s'.at[c] == Holding {
      assert Held(s');
    }
    if Held(s') {
      var d :| 0 <= d < |s'.at| && s'.at[d] == Holding;
      assert d != c ==> s.at[d] == Holding;
    }
    if Held(s) {
      var d :| 0 <= d < |s.at| && s.at[d] == Holding;
      assert d != c ==> s'.at[d] == Holding;
    }
  }

  function Run(s: State, schedule: seq<nat>): State
    requires Wellformed(s) && forall c | c in schedule :: c < |s.at|
    decreases |schedule|
  {
    if schedule == [] then s else
      assert schedule[0] in schedule && forall c | c in schedule[1..] :: c in schedule;
      Run(Step(s, schedule[0]), schedule[1..])
  }

  /** For any number of processors and any interleaving, at most one processor is between `lock` and
      `unlock`, the word is 1 exactly while one is, and a processor has interrupts on exactly while it
      is outside. */
  lemma {:induction false} MutualExclusion(s: State, schedule: seq<nat>)
    requires Inv(s) && forall c | c in schedule :: c < |s.at|
    ensures Inv(Run(s, schedule))
    decreases |schedule|
  {
    if schedule != [] {
      assert schedule[0] in schedule && forall c | c in schedule[1..] :: c in schedule;
      StepKeepsInv(s, schedule[0]);
      MutualExclusion(Step(s, schedule[0]), schedule[1..]);
    }
  }

  lemma StartInv(n: nat)
    ensures Inv(Start(n))
  {
  }

  /** A free lock is taken by any waiting processor that gets two steps in a row. */
  lemma FreeLockIsTaken(s: State, c: nat)
    requires Inv(s) && c < |s.at| && !Held(s) && s.at[c] in {Loading, Exchanging}
    ensures Step(Step(s, c), c).at[c] == Holding || Step(s, c).at[c] == Holding
  {
    StepKeepsInv(s, c);
  }
}
