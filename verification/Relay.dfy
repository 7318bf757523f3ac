/** Repeating a step that moves a state on and appends to two logs. */
module Relay {

  /** A state, with all answers given and everything handed out on the way to it. */
  datatype Leg<+S, +A, +D> = Leg(s: S, answers: seq<A>, delivered: seq<D>)

  function Extended<S, A, D>(before: Leg<S, A, D>, last: Leg<S, A, D>): Leg<S, A, D> {
    Leg(last.s, before.answers + last.answers, before.delivered + last.delivered)
  }

  /** Steps 0..n-1 from s. */
  function Steps<S, A, D>(step: (S, nat) -> Leg<S, A, D>, s: S, n: nat): Leg<S, A, D> {
    if n == 0 then Leg(s, [], [])
    else
      var before := Steps(step, s, n - 1);
      Extended(before, step(before.s, n - 1))
  }

  /** What holds at the start and is kept by every step holds at the end. */
  lemma {:induction false} StepsKeep<S(!new), A(!new), D(!new)>(
      step: (S, nat) -> Leg<S, A, D>, keeps: (nat, Leg<S, A, D>) -> bool, s: S, n: nat)
    requires keeps(0, Leg(s, [], []))
    requires forall i: nat, r: Leg<S, A, D> :: i < n && keeps(i, r) ==> keeps(i + 1, Extended(r, step(r.s, i)))
    ensures keeps(n, Steps(step, s, n))
  {
    if n > 0 {
      StepsKeep(step, keeps, s, n - 1);
    }
  }
}
