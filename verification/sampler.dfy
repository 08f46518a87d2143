/**
 The action sampler: the legal actions of a state (`possible_actions`) and
 the random pick among them (`action_choice`). The random draw is an oracle
 argument: `draw` is the index `np.random.choice` picks from the candidate
 list, or, in the fallback, the value it picks from `0..4`.
 */
module ActionSampler {
  import opened Indices
  import opened Tables

  /** Moving from `s` to `a` is allowed when its reward is strictly positive. */
  predicate Legal(r: Table, s: int, a: int)
    requires WellFormed(r) && 0 <= s < N && 0 <= a < N
  {
    r[s][a] > 0.0
  }

  /** `possible_actions(state)`: the columns of row `s` of `R` holding a
      positive reward, in increasing order. */
  function PossibleActions(r: Table, s: int): (acts: seq<nat>)
    requires WellFormed(r) && 0 <= s < N
    ensures forall a: int :: a in acts <==> 0 <= a < N && Legal(r, s, a)
    ensures forall k :: 0 <= k < |acts| ==> acts[k] < N
    ensures StrictlyIncreasing(acts)
  {
    Where(r[s], x => x > 0.0, 0)
  }

  /** The legal actions of a state, listed in increasing order, form exactly
      one sequence: any such listing is the one `PossibleActions` returns. */
  lemma PossibleActionsUnique(r: Table, s: int, xs: seq<nat>)
    requires WellFormed(r) && 0 <= s < N
    requires StrictlyIncreasing(xs)
    requires forall a: int :: a in xs <==> 0 <= a < N && Legal(r, s, a)
    ensures xs == PossibleActions(r, s)
  {
    IncreasingUnique(xs, PossibleActions(r, s));
  }

  /** The exclusive bound of the fallback draw, the literal 5 of the source:
      one less than the number of states. */
  const FallbackRange: nat := 5

  /** Whether the local `next_action` has been assigned. */
  datatype Binding = Unbound | Bound(action: nat)

  /** How many values the one random draw of `action_choice` ranges over. */
  function DrawRange(acts: seq<nat>): nat {
    if Sum(acts) > 0 then |acts| else FallbackRange
  }

  /** `action_choice(acts)`: two guarded assignments in sequence. The first
      picks from the list when the indices sum to more than 0; the second
      draws from `0..4` when they sum to at most 0. */
  function ActionChoice(acts: seq<nat>, draw: nat): (next: Binding)
    requires draw < DrawRange(acts)
    ensures next.Bound?
    ensures Sum(acts) > 0 ==> next.action in acts
    ensures Sum(acts) <= 0 ==> next.action < FallbackRange
  {
    var afterFirst := if Sum(acts) > 0 then Bound(acts[draw]) else Unbound;
    if Sum(acts) <= 0 then Bound(draw) else afterFirst
  }

  /** Every value the contract of `ActionChoice` allows is picked by some draw:
      each listed action when the sum is positive, each of `0..4` otherwise. */
  lemma ActionChoiceCovers(acts: seq<nat>, a: nat)
    requires if Sum(acts) > 0 then a in acts else a < FallbackRange
    ensures exists draw: nat :: draw < DrawRange(acts) && ActionChoice(acts, draw) == Bound(a)
  {
    if Sum(acts) > 0 {
      var k :| 0 <= k < |acts| && acts[k] == a;
      assert ActionChoice(acts, k) == Bound(a);
    } else {
      assert ActionChoice(acts, a) == Bound(a);
    }
  }

  /** The action the script takes from state `s` for the given draw. */
  function ChooseAction(r: Table, s: int, draw: nat): (a: nat)
    requires WellFormed(r) && 0 <= s < N
    requires draw < DrawRange(PossibleActions(r, s))
    ensures a < N
    ensures Sum(PossibleActions(r, s)) > 0 ==> Legal(r, s, a)
    ensures Sum(PossibleActions(r, s)) <= 0 ==> a < FallbackRange
  {
    ActionChoice(PossibleActions(r, s), draw).action
  }

  /** The fallback is taken exactly when no action other than 0 is legal:
      when the state has no legal action, and also when 0 is its only one. */
  lemma {:induction false} FallbackIff(r: Table, s: int)
    requires WellFormed(r) && 0 <= s < N
    ensures Sum(PossibleActions(r, s)) <= 0 <==> forall a :: 0 < a < N ==> !Legal(r, s, a)
  {
    var acts := PossibleActions(r, s);
    SumZeroIff(acts);
    if Sum(acts) <= 0 {
      forall a | 0 < a < N
        ensures !Legal(r, s, a)
      {
        assert Legal(r, s, a) ==> a in acts;
      }
    } else {
      var k :| 0 <= k < |acts| && acts[k] != 0;
      assert acts[k] in acts;
      assert Legal(r, s, acts[k]);
    }
  }

  /** In the fallback the pick ignores legality: when 0 is the only candidate
      action, some draw still picks action 1, whose move is not allowed. */
  lemma FallbackMayChooseIllegal(r: Table, s: int)
    requires WellFormed(r) && 0 <= s < N
    requires forall a :: 0 < a < N ==> !Legal(r, s, a)
    ensures exists draw: nat :: draw < DrawRange(PossibleActions(r, s))
                          && ChooseAction(r, s, draw) == 1 && !Legal(r, s, 1)
  {
    FallbackIff(r, s);
    assert ChooseAction(r, s, 1) == 1;
  }
}
