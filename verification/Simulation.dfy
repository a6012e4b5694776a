/** Runs of a machine seen as runs of a simpler one: when every step of the first is a step of the
    second on what it shows, so is every run. */
module Simulation {

  /** Wherever state `v` shows `d`, a step from `v` to `w` is one from `d` to something `w` shows. */
  ghost predicate Simulates<S(!new), D(!new), O(!new),
                              R(!new)>(shows: (S, D) -> bool, step: (S, O, R, S) -> bool, dstep: (D, O, R, D) -> bool) {
    forall v, op, r, w, d {:trigger shows(v, d), step(v, op, r, w)} ::
      shows(v, d) && step(v, op, r, w) ==> exists n {:trigger dstep(d, op, r, n)} :: shows(w, n) && dstep(d, op, r, n)
  }

  ghost predicate IsRun<S, O, R>(step: (S, O, R, S) -> bool, states: seq<S>, ops: seq<O>, rs: seq<R>) {
    && |states| == |ops| + 1 && |rs| == |ops|
    && forall i {:trigger ops[i]} :: 0 <= i < |ops| ==> step(states[i], ops[i], rs[i], states[i + 1])
  }

  /** State for state. */
  ghost predicate ShowsAll<S, D>(shows: (S, D) -> bool, states: seq<S>, ds: seq<D>) {
    |ds| == |states| && forall i {:trigger ds[i]} :: 0 <= i < |ds| ==> shows(states[i], ds[i])
  }

  lemma RunPrefix<S, O, R>(step: (S, O, R, S) -> bool, states: seq<S>, ops: seq<O>, rs: seq<R>, n: nat)
    requires IsRun(step, states, ops, rs) && n <= |ops|
    ensures IsRun(step, states[..n + 1], ops[..n], rs[..n])
  {
    forall i | 0 <= i < n ensures step(states[..n + 1][i], ops[..n][i], rs[..n][i], states[..n + 1][i + 1]) {
      assert ops[i] == ops[..n][i];
    }
  }

  lemma RunGrows<D, O, R>(dstep: (D, O, R, D) -> bool, ds: seq<D>, ops: seq<O>, rs: seq<R>, next: D)
    requires ops != [] && |rs| == |ops| && |ds| == |ops|
    requires IsRun(dstep, ds, ops[..|ops| - 1], rs[..|ops| - 1])
      && dstep(ds[|ds| - 1], ops[|ops| - 1], rs[|ops| - 1], next)
    ensures IsRun(dstep, ds + [next], ops, rs)
  {
    var n := |ops| - 1;
    forall i | 0 <= i < |ops| ensures dstep((ds + [next])[i], ops[i], rs[i], (ds + [next])[i + 1]) {
      if i < n {
        assert ops[..n][i] == ops[i] && rs[..n][i] == rs[i];
      }
    }
  }

  /** Every run of the first machine shows a run of the second, from whatever its start shows. */
  lemma {:induction false} RunShows<S(!new), D(!new), O(!new),
                                      R(!new)>(shows: (S, D) -> bool, step: (S, O, R, S) -> bool,
                                          dstep: (D, O, R, D) -> bool,
                                                states: seq<S>, ops: seq<O>, rs: seq<R>, d: D)
    returns (ds: seq<D>)
    requires Simulates(shows, step, dstep) && IsRun(step, states, ops, rs) && shows(states[0], d)
    ensures ShowsAll(shows, states, ds) && IsRun(dstep, ds, ops, rs) && ds[0] == d
    decreases |ops|
  {
    if ops == [] {
      ds := [d];
    } else {
      var n := |ops| - 1;
      RunPrefix(step, states, ops, rs, n);
      var front := RunShows(shows, step, dstep, states[..n + 1], ops[..n], rs[..n], d);
      assert shows(states[..n + 1][n], front[n]) && step(states[n], ops[n], rs[n], states[n + 1]);
      var next :| shows(states[n + 1], next) && dstep(front[n], ops[n], rs[n], next);
      RunGrows(dstep, front, ops, rs, next);
      ds := front + [next];
      forall i | 0 <= i < |ds| ensures shows(states[i], ds[i]) {
        if i <= n {
          assert shows(states[..n + 1][i], front[i]);
        }
      }
    }
  }
}
