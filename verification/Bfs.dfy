/** Breadth-first levels and balls, for the walks that stop after a number of hops. */
module Bfs {
  import opened Graphs

  /** `S` is the set of nodes at distance exactly `d`. */
  ghost predicate IsLevel<T(!new)>(E: set<(T, T)>, s: T, S: set<T>, d: nat)
  {
    forall t :: t in S <==> Distance(E, s, t, d)
  }

  /** `S` is the set of nodes at distance at most `d`. */
  ghost predicate IsBall<T(!new)>(E: set<(T, T)>, s: T, S: set<T>, d: nat)
  {
    forall t :: t in S <==> Within(E, s, t, d)
  }

  /** `next` is what the level points at outside the ball. */
  ghost predicate Expands<T(!new)>(E: set<(T, T)>, ball: set<T>, level: set<T>, next: set<T>)
  {
    forall t :: t in next <==> t !in ball && exists m :: m in level && (m, t) in E
  }

  lemma BallStarts<T(!new)>(E: set<(T, T)>, s: T)
    ensures IsLevel(E, s, {s}, 0) && IsBall(E, s, {s}, 0)
  {
  }

  lemma WithinStep<T(!new)>(E: set<(T, T)>, s: T, t: T, d: nat)
    ensures Within(E, s, t, d + 1) <==> Within(E, s, t, d) || Distance(E, s, t, d + 1)
  {
    if Within(E, s, t, d + 1) && !Within(E, s, t, d) {
      var k := WithinHasDistance(E, s, t, d + 1);
      assert k == d + 1;
    }
  }

  /** One hop of a breadth-first walk. */
  lemma BallGrows<T(!new)>(E: set<(T, T)>, s: T, ball: set<T>, level: set<T>, next: set<T>, d: nat)
    requires IsBall(E, s, ball, d) && IsLevel(E, s, level, d) && Expands(E, ball, level, next)
    ensures IsLevel(E, s, next, d + 1) && IsBall(E, s, ball + next, d + 1)
  {
    forall t ensures t in next <==> Distance(E, s, t, d + 1) {
      DistanceStep(E, s, t, d);
    }
    forall t ensures t in ball + next <==> Within(E, s, t, d + 1) {
      WithinStep(E, s, t, d);
    }
  }

  /** Once a level is empty the ball no longer grows. */
  lemma {:induction false} BallStops<T(!new)>(E: set<(T, T)>, s: T, ball: set<T>, d: nat, e: nat)
    requires IsBall(E, s, ball, d) && IsLevel(E, s, {}, d + 1) && d <= e
    ensures IsBall(E, s, ball, e) && IsLevel(E, s, {}, e + 1)
    decreases e - d
  {
    if d < e {
      forall t ensures t in ball <==> Within(E, s, t, d + 1) {
        WithinStep(E, s, t, d);
      }
      var after := d + 2;
      forall t ensures !Distance(E, s, t, after) {
        DistanceStep(E, s, t, d + 1);
      }
      BallStops(E, s, ball, d + 1, e);
    }
  }
}
