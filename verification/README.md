# Tabular Q-learning on a six-state graph, in Dafny

This project models the Q-learning script `chapter-01/mdp_eq.py`. The script
has a 6×6 reward matrix `R` whose rows are states and whose columns are
actions. An action index is also the index of the next state. Positive
entries mark the moves that are allowed, and the goal state 2 has a
self-loop worth 100. The script also has a 6×6 value table `Q` that starts
at zero, and a discount factor `gamma = 0.8`. Training repeats three steps:

1. draw a random current state;
2. list its legal actions (`possible_actions`) and pick one at random
   (`action_choice`);
3. apply the Bellman backup (`reward`). The backup takes the maximum of the
   chosen action's row of `Q`, breaking ties at random, and writes
   `R[s, a] + gamma * max` into `Q[s, a]`.

The model is functional. Tables are immutable `seq<seq<real>>` values.
Every random draw is an explicit argument, and a precondition keeps it in
the range the source draws from:

- `draw` is the index picked from the candidate list, or the value picked
  from `0..4` in the fallback;
- `tie` is the index picked among the tied maximal columns;
- `Draw.state` is the current state.

The training loop is a fold (`Training.Train`) over a sequence of these
draws, and `Training.RunTraining` is the loop that computes it. The number
of iterations is the length of that sequence.

Modules:

- `Indices`: `np.where` over one row (`Where`), Python's `sum`, and strictly
  increasing index lists.
- `Tables`: the N×N shape with N = 6, the zero table, the single-cell write,
  and the row maximum.
- `ActionSampler`: `possible_actions` and `action_choice`.
- `Bellman`: the tie-broken row maximum and the backup `reward`.
- `Training`: the loop, the reference `R`, `gamma` and start state, and facts
  about them.

`reward` never writes `R`. In the model this holds by construction: `R` is
an immutable value, and `Bellman.Update` returns only the new value table.

Two behaviours are modelled exactly as the code has them:

- `action_choice` branches on the *sum* of the candidate indices, not on
  their number.
- The fallback draws from `0..4` (the literal 5), one fewer value than there
  are states.

So the fallback is taken both when a state has no legal action and when
action 0 is its only legal action (`ActionSampler.FallbackIff`). In that case
the pick ignores legality (`ActionSampler.FallbackMayChooseIllegal`) and can
never be state 5. A description of the system that says the fallback fires
only on an empty action set, and that the pick is always legal when legal
actions exist, disagrees with this code. The model follows the code. With
the reference matrix every state has a legal move to a state other than 0,
so the fallback is never taken (`Training.ReferenceNeverFallsBack`). Every
move the script makes is then legal (`Training.ReferenceChoiceLegal`).

## Model

| member | source | states |
|---|---|---|
| Tables.Zeros | chapter-01/mdp_eq.py:21 | the initial value table is 6×6 and every entry is 0 |
| Tables.Write | chapter-01/mdp_eq.py:70 | assigning `Q[s, a]` sets that cell to the value and leaves every other cell unchanged |
| Tables.RowMax | chapter-01/mdp_eq.py:60 | `np.max` of a row is one of the row's entries, and no entry exceeds it |
| Indices.Where | chapter-01/mdp_eq.py:33 | `np.where` on a row returns exactly the columns whose entry satisfies the test, in strictly increasing order |
| ActionSampler.PossibleActions | chapter-01/mdp_eq.py:31-34 | an index is listed iff it is in `0..5` and `R[s, a] > 0`; the list is strictly increasing, so it has no duplicates |
| ActionSampler.PossibleActionsUnique | chapter-01/mdp_eq.py:31-34 | any strictly increasing list of exactly the legal actions equals the result of `possible_actions` |
| ActionSampler.ActionChoice | chapter-01/mdp_eq.py:43-48 | the two guards together always assign `next_action`; if the indices sum to more than 0 it is a listed action, otherwise it is below 5 |
| ActionSampler.ActionChoiceCovers | chapter-01/mdp_eq.py:44-47 | every listed action (positive sum), or every value in `0..4` (fallback), is returned for some draw |
| ActionSampler.ChooseAction | chapter-01/mdp_eq.py:82-83 | the action taken from a state is a valid index; it is legal unless the fallback fires, and in the fallback it is below 5 |
| ActionSampler.FallbackIff | chapter-01/mdp_eq.py:44-47 | the candidate indices sum to at most 0 iff no action other than 0 is legal from the state |
| ActionSampler.FallbackMayChooseIllegal | chapter-01/mdp_eq.py:46-47 | when 0 is the only possible legal action, some fallback draw picks action 1, which is not legal |
| Bellman.MaxIndices | chapter-01/mdp_eq.py:60 | the tied columns are exactly those holding the row maximum; the list is non-empty and strictly increasing |
| Bellman.MaxValue | chapter-01/mdp_eq.py:60-67 | whichever tied column the draw picks, `max_value` is the maximum of the row |
| Bellman.Update | chapter-01/mdp_eq.py:59-70 | afterwards `Q[s, a] = R[s, a] + gamma * max(old Q[a, :])`, read before the write even when `s == a`; no other cell changes |
| Bellman.TieBreakIrrelevant | chapter-01/mdp_eq.py:62-67 | two different tie-break draws give the same updated table |
| Bellman.UpdateStableOffDiagonal | chapter-01/mdp_eq.py:59-70 | for `s != a`, applying the backup a second time leaves the table unchanged: `Q[s, a]` is at its fixed point |
| Bellman.UpdatePreservesNonNegative | chapter-01/mdp_eq.py:59-70 | with `R >= 0`, `gamma >= 0` and `Q >= 0`, every entry stays `>= 0` after the backup |
| Bellman.ZeroRowTies | chapter-01/mdp_eq.py:60-63 | on the zero table all six columns of a row tie for the maximum |
| Bellman.UpdateOnZeros | chapter-01/mdp_eq.py:59-70 | on the zero table the look-ahead term is 0, so the backup writes exactly `R[s, a]` |
| Training.Visits | chapter-01/mdp_eq.py:80-84 | one written cell per iteration, and each is inside the 6×6 table at the drawn state |
| Training.Train | chapter-01/mdp_eq.py:80-84 | the loop keeps the table 6×6; cells no iteration writes keep their value; non-negative `R`, `gamma` and starting table give a non-negative result |
| Training.RunTraining | chapter-01/mdp_eq.py:80-84 | the iterative loop computes the fold `Train`; iteration `k` writes cell (drawn state, chosen action), and both indices lie in `[0, 6)` |
| Training.ReferenceNeverFallsBack | chapter-01/mdp_eq.py:12-19 | in the reference matrix every state's candidate indices sum to more than 0 |
| Training.ReferenceChoiceLegal | chapter-01/mdp_eq.py:44-45 | with the reference matrix, every action the loop picks is a legal move |
| Training.StartActions | chapter-01/mdp_eq.py:26-38 | the legal actions from the start state 1 are exactly `[3, 5]` |
| Training.FirstStep | chapter-01/mdp_eq.py:26-74 | the update before the loop picks 3 or 5 and writes reward 1 into that cell of the zero table; every other cell stays 0 |
| Training.Script | chapter-01/mdp_eq.py:12-84 | the learned table from the reference configuration is 6×6 and has no negative entry |

## Left out

- The printing at lines 86-92 is left out. It is display only, and its normalisation `Q/np.max(Q)` divides by zero when the maximum is 0.
- Random number generation is left out. Each draw of `np.random.randint` and `np.random.choice` is an argument constrained to its range; uniformity is not modelled.
- IEEE floating point is left out. Values are exact `real`s, and nothing about rounding is claimed.
- The iteration count 50000 is the length of the draw sequence, a parameter. No convergence or optimality claim about the learned table is made, because that is statistical, not a per-run guarantee.
- Same-seed determinism is given by construction: the model is a pure function of its draws.
- `Training.Script` models the update before the loop (line 74) as the first iteration of the fold, with its state fixed to 1. `Training.FirstStep` states that update on its own.
- The single-element case of the tie-break (`int(max_state)`, line 65) takes the only column without a draw. The `tie` argument is constrained only when more than one column ties.
- numpy negative or out-of-range indexing is left out. Every index the script uses is proved to lie in `0..5`, so it never arises.
- Training.Visits: its contract gives each iteration's state and the range of both indices, but not which action was chosen. `Training.RunTraining` states the chosen action of each iteration.
