/**
 The training loop and the script's configuration: the reference reward
 matrix, the discount factor 0.8 and the start state 1. Each iteration draws
 a current state, asks the sampler for an action and applies the Bellman
 backup. The loop is a fold over the iterations' random draws; the number of
 iterations is the length of that sequence.
 */
module Training {
  import opened Indices
  import opened Tables
  import opened ActionSampler
  import opened Bellman

  /** The random draws of one iteration: the current state
      (`np.random.randint(0, 6)`), the action draw of `action_choice` and
      the tie-break draw of `reward`. */
  datatype Draw = Draw(state: int, choice: nat, tie: nat)

  /** The state draw is a state and the action draw is in its range. */
  predicate ValidChoice(r: Table, d: Draw)
    requires WellFormed(r)
  {
    0 <= d.state < N && d.choice < DrawRange(PossibleActions(r, d.state))
  }

  predicate ValidChoices(r: Table, draws: seq<Draw>)
    requires WellFormed(r)
  {
    forall k :: 0 <= k < |draws| ==> ValidChoice(r, draws[k])
  }

  /** Validity of the state and action draws carries over to any suffix. */
  lemma ChoicesSuffix(r: Table, draws: seq<Draw>, k: nat)
    requires WellFormed(r) && ValidChoices(r, draws) && k <= |draws|
    ensures ValidChoices(r, draws[k..])
  {
    assert forall i :: 0 <= i < |draws| - k ==> draws[k..][i] == draws[k + i];
  }

  /** The action iteration `d` takes. */
  function Action(r: Table, d: Draw): (a: nat)
    requires WellFormed(r) && ValidChoice(r, d)
    ensures a < N
    ensures Sum(PossibleActions(r, d.state)) > 0 ==> Legal(r, d.state, a)
  {
    ChooseAction(r, d.state, d.choice)
  }

  /** Every tie-break draw is in range for the table its iteration sees.
      Unlike the state and action draws, this depends on the earlier
      iterations, which change the table. */
  predicate TiesValid(r: Table, q: Table, gamma: real, draws: seq<Draw>)
    requires WellFormed(r) && WellFormed(q) && ValidChoices(r, draws)
    decreases |draws|
  {
    |draws| == 0 ||
    (ValidTie(q[Action(r, draws[0])], draws[0].tie) &&
     TiesValid(r, Update(r, q, draws[0].state, Action(r, draws[0]), gamma, draws[0].tie), gamma, draws[1..]))
  }

  /** The (state, action) cell each iteration writes. */
  function Visits(r: Table, draws: seq<Draw>): (v: seq<(int, int)>)
    requires WellFormed(r) && ValidChoices(r, draws)
    ensures |v| == |draws|
    ensures forall k :: 0 <= k < |v| ==> 0 <= v[k].0 < N && 0 <= v[k].1 < N
    ensures forall k :: 0 <= k < |v| ==> v[k].0 == draws[k].state
  {
    if |draws| == 0 then []
    else [(draws[0].state, Action(r, draws[0]))] + Visits(r, draws[1..])
  }

  /** The loop as a fold: the value table after running the iterations
      `draws` from table `q`. Only visited cells change, and non-negative
      rewards keep a non-negative table non-negative. */
  function Train(r: Table, q: Table, gamma: real, draws: seq<Draw>): (q': Table)
    requires WellFormed(r) && WellFormed(q) && ValidChoices(r, draws)
    requires TiesValid(r, q, gamma, draws)
    ensures WellFormed(q')
    ensures NonNegative(r) && NonNegative(q) && gamma >= 0.0 ==> NonNegative(q')
    ensures forall i, j :: 0 <= i < N && 0 <= j < N && (i, j) !in Visits(r, draws) ==> q'[i][j] == q[i][j]
    decreases |draws|
  {
    if |draws| == 0 then q
    else
      var d := draws[0];
      var q1 := Update(r, q, d.state, Action(r, d), gamma, d.tie);
      assert NonNegative(r) && NonNegative(q) && gamma >= 0.0 ==> NonNegative(q1) by {
        if NonNegative(r) && NonNegative(q) && gamma >= 0.0 {
          UpdatePreservesNonNegative(r, q, d.state, Action(r, d), gamma, d.tie);
        }
      }
      Train(r, q1, gamma, draws[1..])
  }

  /** The `for` loop: each iteration takes the drawn state, picks an action
      and backs up `Q[state, action]`. It computes the fold `Train` and
      reports the cell each iteration wrote, all of them inside the table. */
  method RunTraining(r: Table, q0: Table, gamma: real, draws: seq<Draw>)
    returns (q: Table, visits: seq<(int, int)>)
    requires WellFormed(r) && WellFormed(q0) && ValidChoices(r, draws)
    requires TiesValid(r, q0, gamma, draws)
    ensures WellFormed(q)
    ensures q == Train(r, q0, gamma, draws)
    ensures |visits| == |draws|
    ensures forall k :: 0 <= k < |draws| ==> visits[k] == (draws[k].state, Action(r, draws[k]))
    ensures forall k :: 0 <= k < |visits| ==> 0 <= visits[k].0 < N && 0 <= visits[k].1 < N
  {
    q, visits := q0, [];
    var k := 0;
    assert draws[0..] == draws;
    while k < |draws|
      invariant 0 <= k <= |draws| && WellFormed(q)
      invariant LoopInvariant(r, q0, gamma, draws, k, q, visits)
    {
      var d := draws[k];
      var a := Action(r, d);
      var q1 := Update(r, q, d.state, a, gamma, d.tie);
      LoopStep(r, q0, gamma, draws, k, q, visits);
      q, visits := q1, visits + [(d.state, a)];
      k := k + 1;
    }
    assert draws[k..] == [];
  }

  /** What holds after the first `k` iterations of `RunTraining`: the rest
      of the draws are still valid, folding them over `q` finishes the run,
      and `visits` lists the cells the first `k` iterations wrote. */
  ghost predicate LoopInvariant(r: Table, q0: Table, gamma: real, draws: seq<Draw>, k: int,
                                q: Table, visits: seq<(int, int)>)
    requires WellFormed(r) && WellFormed(q0) && ValidChoices(r, draws)
    requires TiesValid(r, q0, gamma, draws)
    requires 0 <= k <= |draws| && WellFormed(q)
  {
    && ValidChoices(r, draws[k..])
    && TiesValid(r, q, gamma, draws[k..])
    && Train(r, q, gamma, draws[k..]) == Train(r, q0, gamma, draws)
    && |visits| == k
    && forall i :: 0 <= i < k ==> visits[i] == (draws[i].state, Action(r, draws[i]))
  }

  /** One pass of the loop body keeps `LoopInvariant`. */
  lemma LoopStep(r: Table, q0: Table, gamma: real, draws: seq<Draw>, k: int,
                 q: Table, visits: seq<(int, int)>)
    requires WellFormed(r) && WellFormed(q0) && ValidChoices(r, draws)
    requires TiesValid(r, q0, gamma, draws)
    requires 0 <= k < |draws| && WellFormed(q)
    requires LoopInvariant(r, q0, gamma, draws, k, q, visits)
    ensures ValidTie(q[Action(r, draws[k])], draws[k].tie)
    ensures var d := draws[k];
            var a := Action(r, d);
            LoopInvariant(r, q0, gamma, draws, k + 1, Update(r, q, d.state, a, gamma, d.tie),
                          visits + [(d.state, a)])
  {
    var rest := draws[k..];
    assert rest[0] == draws[k] && rest[1..] == draws[k + 1..];
    UnfoldFirst(r, q, gamma, rest);
    var d := draws[k];
    var visits' := visits + [(d.state, Action(r, d))];
    forall i | 0 <= i < k + 1
      ensures visits'[i] == (draws[i].state, Action(r, draws[i]))
    {
      if i < k {
        assert visits'[i] == visits[i];
      }
    }
  }

  /** One iteration of the fold, taken off the front. */
  lemma UnfoldFirst(r: Table, q: Table, gamma: real, draws: seq<Draw>)
    requires WellFormed(r) && WellFormed(q) && ValidChoices(r, draws)
    requires TiesValid(r, q, gamma, draws) && |draws| > 0
    ensures ValidChoice(r, draws[0]) && ValidChoices(r, draws[1..])
    ensures var d := draws[0];
            var q1 := Update(r, q, d.state, Action(r, d), gamma, d.tie);
            && TiesValid(r, q1, gamma, draws[1..])
            && Train(r, q, gamma, draws) == Train(r, q1, gamma, draws[1..])
  {
    ChoicesSuffix(r, draws, 1);
  }

  /** The reward matrix `R` of the script: 1 marks an edge of the graph,
      and the self-loop of the goal state 2 carries 100. */
  const Reward: Table := [
    [0.0, 0.0, 0.0,   0.0, 1.0, 0.0],
    [0.0, 0.0, 0.0,   1.0, 0.0, 1.0],
    [0.0, 0.0, 100.0, 1.0, 0.0, 0.0],
    [0.0, 1.0, 1.0,   0.0, 1.0, 0.0],
    [1.0, 0.0, 0.0,   1.0, 0.0, 0.0],
    [0.0, 1.0, 0.0,   0.0, 0.0, 0.0]
  ]

  /** The discount factor `gamma`. */
  const Gamma: real := 0.8

  /** `agent_s_state`: the state of the single update made before the loop. */
  const AgentStart: int := 1

  lemma ReferenceWellFormed()
    ensures WellFormed(Reward) && NonNegative(Reward)
  {
  }

  /** Every state of the reference matrix can move to some state other than
      0, so the fallback draw of `action_choice` is never taken. */
  lemma ReferenceNeverFallsBack(s: int)
    requires 0 <= s < N
    ensures Sum(PossibleActions(Reward, s)) > 0
  {
    FallbackIff(Reward, s);
    var a := if s == 0 then 4 else if s == 1 then 3 else if s == 2 then 2
             else if s == 3 then 1 else if s == 4 then 3 else 1;
    assert Legal(Reward, s, a);
  }

  /** Hence with the reference matrix every iteration takes a legal move. */
  lemma ReferenceChoiceLegal(d: Draw)
    requires ValidChoice(Reward, d)
    ensures Legal(Reward, d.state, Action(Reward, d))
  {
    ReferenceNeverFallsBack(d.state);
  }

  /** From the start state 1 the legal moves are to states 3 and 5. */
  lemma StartActions()
    ensures PossibleActions(Reward, AgentStart) == [3, 5]
  {
    PossibleActionsUnique(Reward, AgentStart, [3, 5]);
  }

  /** The update made before the loop, from state 1 on the zero table: the
      chosen action is 3 or 5, and the backup writes its immediate reward 1
      into that cell, leaving every other cell 0. */
  lemma FirstStep(choice: nat, tie: nat)
    requires choice < 2 && tie < N
    ensures var d := Draw(AgentStart, choice, tie);
            ValidChoice(Reward, d)
            && var a := Action(Reward, d);
               ValidTie(Zeros()[a], tie)
               && var q := Update(Reward, Zeros(), AgentStart, a, Gamma, tie);
                  (a == 3 || a == 5) && q[AgentStart][a] == 1.0
                  && forall i, j :: 0 <= i < N && 0 <= j < N && (i != AgentStart || j != a) ==> q[i][j] == 0.0
  {
    StartActions();
    var d := Draw(AgentStart, choice, tie);
    assert Sum([3, 5]) == 8;
    assert ValidChoice(Reward, d);
    var a := Action(Reward, d);
    assert a == [3, 5][choice];
    ZeroRowTies(a);
    UpdateOnZeros(Reward, AgentStart, a, Gamma, tie);
  }

  /** The whole script: the update from `agent_s_state`, then the loop, all
      on the zero table with the reference matrix and discount. The values
      learned are never negative. */
  function Script(draws: seq<Draw>): (q: Table)
    requires |draws| > 0 && draws[0].state == AgentStart
    requires ValidChoices(Reward, draws) && TiesValid(Reward, Zeros(), Gamma, draws)
    ensures WellFormed(q) && NonNegative(q)
  {
    ReferenceWellFormed();
    Train(Reward, Zeros(), Gamma, draws)
  }
}
