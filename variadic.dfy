/**
 * IterArgs (aten/src/ATen/core/Variadic.h): calls a visitor on each argument in order. After
 * each call it asks the visitor's short_circuit() whether to stop.
 *
 * The visitor is its state S, the call operator `visit` and the predicate `shortCircuit`.
 * Arguments are modelled as one element type A.
 */
module Variadic {

  /**
   * The specification of a visit: the visitor state after visiting args in order and the
   * number of arguments visited, stopping right after the first visit whose state short-circuits.
   */
  function Run<S, A>(visit: (S, A) -> S, shortCircuit: S -> bool, s: S, args: seq<A>): (r: (S, nat))
    ensures r.1 <= |args|
    ensures args == [] <==> r.1 == 0
  {
    if args == [] then (s, 0)
    else
      var s' := visit(s, args[0]);
      if shortCircuit(s') then (s', 1)
      else
        var (t, n) := Run(visit, shortCircuit, s', args[1..]);
        (t, n + 1)
  }

  /** The state after visiting every argument of args in order, with no stopping. */
  function VisitAll<S, A>(visit: (S, A) -> S, s: S, args: seq<A>): S
    decreases |args|
  {
    if args == [] then s else visit(VisitAll(visit, s, args[..|args| - 1]), args[|args| - 1])
  }

  lemma VisitAllStep<S, A>(visit: (S, A) -> S, s: S, args: seq<A>, i: nat)
    requires i < |args|
    ensures VisitAll(visit, s, args[..i + 1]) == visit(VisitAll(visit, s, args[..i]), args[i])
  {
    assert args[..i + 1][..i] == args[..i];
  }

  /** Visiting a non-empty prefix of the rest after the first argument. */
  lemma {:induction false} VisitAllCons<S, A>(visit: (S, A) -> S, s: S, args: seq<A>, n: nat)
    requires 0 < n <= |args|
    ensures VisitAll(visit, s, args[..n]) == VisitAll(visit, visit(s, args[0]), args[1..][..n - 1])
    decreases n
  {
    if n == 1 {
      assert args[..1][..0] == [];
    } else {
      VisitAllCons(visit, s, args, n - 1);
      VisitAllStep(visit, s, args, n - 1);
      VisitAllStep(visit, visit(s, args[0]), args[1..], n - 2);
      assert args[1..][..n - 1] == args[1..n];
    }
  }

  /**
   * What a run does: it visits a prefix of args, which is empty only when args is, with the
   * state a plain left-to-right visit of that prefix yields; no visit before the last one of the
   * prefix short-circuits, and the run stops early only because the last one did.
   */
  lemma {:induction false} RunVisitsPrefix<S, A>(visit: (S, A) -> S, shortCircuit: S -> bool, s: S, args: seq<A>)
    ensures var (t, n) := Run(visit, shortCircuit, s, args);
      && t == VisitAll(visit, s, args[..n])
      && (forall i :: 0 < i < n ==> !shortCircuit(VisitAll(visit, s, args[..i])))
      && (n < |args| ==> shortCircuit(t))
    decreases |args|
  {
    if args != [] {
      var s' := visit(s, args[0]);
      assert args[..1][..0] == [];
      if !shortCircuit(s') {
        RunVisitsPrefix(visit, shortCircuit, s', args[1..]);
        var (t, m) := Run(visit, shortCircuit, s', args[1..]);
        VisitAllCons(visit, s, args, m + 1);
        forall i | 0 < i < m + 1 ensures !shortCircuit(VisitAll(visit, s, args[..i])) {
          VisitAllCons(visit, s, args, i);
        }
      }
    }
  }

  /** The short_circuit() of IterArgs itself. */
  function DefaultShortCircuit<S>(s: S): (r: bool)
    ensures !r
  {
    false
  }

  /** With the default short_circuit, every argument is visited. */
  lemma {:induction false} DefaultVisitsAll<S, A>(visit: (S, A) -> S, s: S, args: seq<A>)
    ensures Run(visit, DefaultShortCircuit, s, args) == (VisitAll(visit, s, args), |args|)
    decreases |args|
  {
    if args != [] {
      DefaultVisitsAll(visit, visit(s, args[0]), args[1..]);
      VisitAllCons(visit, s, args, |args|);
      assert args[..|args|] == args;
      assert args[1..][..|args| - 1] == args[1..];
    }
  }

  /**
   * An IterArgs visitor: its state, its call operator and its short_circuit. The ghost log
   * records the arguments passed to the call operator, in order.
   */
  class IterArgs<S, A> {
    var state: S
    const visit: (S, A) -> S
    const shortCircuit: S -> bool
    ghost var log: seq<A>

    constructor(s: S, visit: (S, A) -> S, shortCircuit: S -> bool)
      ensures state == s && this.visit == visit && this.shortCircuit == shortCircuit && log == []
    {
      state := s;
      this.visit := visit;
      this.shortCircuit := shortCircuit;
      log := [];
    }

    /** self()(arg): one call of the visitor. */
    method Call(arg: A)
      modifies this
      ensures state == visit(old(state), arg) && log == old(log) + [arg]
    {
      state := visit(state, arg);
      log := log + [arg];
    }

    /**
     * apply(args...): with no arguments, no call; otherwise call on the first and stop if the
     * visitor now short-circuits, else apply to the rest.
     */
    method Apply(args: seq<A>)
      modifies this
      ensures var (t, n) := Run(visit, shortCircuit, old(state), args);
        state == t && log == old(log) + args[..n]
      decreases |args|
    {
      if args == [] {
        return;
      }
      Call(args[0]);
      if shortCircuit(state) {
        return;
      }
      Apply(args[1..]);
      assert [args[0]] + args[1..][..Run(visit, shortCircuit, visit(old(state), args[0]), args[1..]).1]
          == args[..Run(visit, shortCircuit, old(state), args).1];
    }

    /** operator()(ArrayRef): call on each element in order, stopping after the first short-circuit. */
    method ApplyArrayRef(args: seq<A>)
      modifies this
      ensures var (t, n) := Run(visit, shortCircuit, old(state), args);
        state == t && log == old(log) + args[..n]
    {
      ghost var s0 := state;
      ghost var log0 := log;
      var i := 0;
      while i < |args|
        invariant 0 <= i <= |args|
        invariant Run(visit, shortCircuit, s0, args).0 == Run(visit, shortCircuit, state, args[i..]).0
        invariant Run(visit, shortCircuit, s0, args).1 == i + Run(visit, shortCircuit, state, args[i..]).1
        invariant log == log0 + args[..i]
      {
        Call(args[i]);
        assert args[..i + 1] == args[..i] + [args[i]];
        assert args[i..][0] == args[i];
        if shortCircuit(state) {
          return;
        }
        assert args[i..][1..] == args[i + 1..];
        i := i + 1;
      }
    }

    /** operator()(List): the same loop over a list. */
    method ApplyList(args: seq<A>)
      modifies this
      ensures var (t, n) := Run(visit, shortCircuit, old(state), args);
        state == t && log == old(log) + args[..n]
    {
      ghost var s0 := state;
      ghost var log0 := log;
      var i := 0;
      while i < |args|
        invariant 0 <= i <= |args|
        invariant Run(visit, shortCircuit, s0, args).0 == Run(visit, shortCircuit, state, args[i..]).0
        invariant Run(visit, shortCircuit, s0, args).1 == i + Run(visit, shortCircuit, state, args[i..]).1
        invariant log == log0 + args[..i]
      {
        Call(args[i]);
        assert args[..i + 1] == args[..i] + [args[i]];
        assert args[i..][0] == args[i];
        if shortCircuit(state) {
          return;
        }
        assert args[i..][1..] == args[i + 1..];
        i := i + 1;
      }
    }

    /** operator()(vector): forwards to the ArrayRef overload. */
    method ApplyVector(args: seq<A>)
      modifies this
      ensures var (t, n) := Run(visit, shortCircuit, old(state), args);
        state == t && log == old(log) + args[..n]
    {
      ApplyArrayRef(args);
    }
  }
}
