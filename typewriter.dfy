/**
 * The rotating job-title typewriter of the hero section
 * (src/components/react/Hero.tsx).
 *
 * Three `useState` variables drive it: `roleIndex` picks the current role,
 * `displayed` is the text shown so far and `deleting` says which way the text
 * is moving. Each run of the effect schedules one timer; when it fires, the
 * state takes one step. A step types the next character (after 60 ms), turns
 * to deleting once the word is complete (after 2000 ms), removes the last
 * character (after 35 ms), or, with nothing left to delete, moves to the next
 * role at once (no timer; modelled as a delay of 0).
 */
module Typewriter {
  import opened Wrappers

  const Roles: seq<string> := ["Psychology Researcher", "Developer", "Creative Technologist"]

  const TypeDelay: nat := 60
  const PauseDelay: nat := 2000
  const EraseDelay: nat := 35

  datatype State = State(roleIndex: nat, displayed: string, deleting: bool)

  const Initial: State := State(0, "", false)

  /**
   * The role index is in range and the text shown is a prefix of that role.
   * The step functions below take the role list as a parameter, so what is
   * proved about them holds for any list, `Roles` included.
   */
  predicate WellFormed(roles: seq<string>, s: State) {
    s.roleIndex < |roles| && s.displayed <= roles[s.roleIndex]
  }

  /** One step: the state the scheduled update produces and the delay before it. */
  datatype Tick = Tick(next: State, delay: nat)

  /**
   * The four branches of the effect, in the source's order. When none applies
   * (typing, with more text shown than the role has), the effect schedules
   * nothing and the machine stops: `None`.
   */
  function Next(roles: seq<string>, s: State): (r: Option<Tick>)
    requires s.roleIndex < |roles|
    // under the prefix invariant some branch always applies, and it keeps the invariant
    ensures WellFormed(roles, s) ==> r.Some? && WellFormed(roles, r.value.next)
    // typing: the next character of the role is appended
    ensures WellFormed(roles, s) && !s.deleting && |s.displayed| < |roles[s.roleIndex]| ==>
      r == Some(Tick(State(s.roleIndex, s.displayed + [roles[s.roleIndex][|s.displayed|]], false), TypeDelay))
    // full word: pause, then start deleting; the text is unchanged
    ensures WellFormed(roles, s) && !s.deleting && s.displayed == roles[s.roleIndex] ==>
      r == Some(Tick(State(s.roleIndex, s.displayed, true), PauseDelay))
    // deleting: exactly the last character is removed
    ensures s.deleting && s.displayed != [] ==>
      r.Some? && r.value.delay == EraseDelay && r.value.next.deleting &&
      r.value.next.roleIndex == s.roleIndex &&
      r.value.next.displayed + [s.displayed[|s.displayed| - 1]] == s.displayed
    // nothing left: immediately back to typing the next role, modulo the list length
    ensures s.deleting && s.displayed == [] ==>
      r == Some(Tick(State((s.roleIndex + 1) % |roles|, "", false), 0))
    // the stuck case is exactly "typing, with more text than the role"
    ensures r.None? <==> !s.deleting && |s.displayed| > |roles[s.roleIndex]|
  {
    var current := roles[s.roleIndex];
    if !s.deleting && |s.displayed| < |current| then
      assert s.displayed <= current ==> s.displayed == current[..|s.displayed|];
      assert current[..|s.displayed| + 1] == current[..|s.displayed|] + [current[|s.displayed|]];
      Some(Tick(State(s.roleIndex, current[..|s.displayed| + 1], false), TypeDelay))
    else if !s.deleting && |s.displayed| == |current| then
      Some(Tick(State(s.roleIndex, s.displayed, true), PauseDelay))
    else if s.deleting && |s.displayed| > 0 then
      Some(Tick(State(s.roleIndex, s.displayed[..|s.displayed| - 1], true), EraseDelay))
    else if s.deleting && |s.displayed| == 0 then
      Some(Tick(State((s.roleIndex + 1) % |roles|, "", false), 0))
    else
      None
  }

  /** `n` steps from a well-formed state: the state reached and the total delay. */
  function Run(roles: seq<string>, s: State, n: nat): (r: Tick)
    requires WellFormed(roles, s)
    ensures WellFormed(roles, r.next)
    decreases n
  {
    if n == 0 then Tick(s, 0)
    else
      var t := Next(roles, s).value;
      var rest := Run(roles, t.next, n - 1);
      Tick(rest.next, t.delay + rest.delay)
  }

  /** Running `a` steps and then `b` steps is running `a + b` steps. */
  lemma {:induction false} RunAdds(roles: seq<string>, s: State, a: nat, b: nat)
    requires WellFormed(roles, s)
    ensures var mid := Run(roles, s, a);
            var tail := Run(roles, mid.next, b);
            Run(roles, s, a + b) == Tick(tail.next, mid.delay + tail.delay)
    decreases a
  {
    if a > 0 {
      var t := Next(roles, s).value;
      RunAdds(roles, t.next, a - 1, b);
    }
  }

  /** From a typed prefix of length `k`, the rest of role `i` is typed at 60 ms a character. */
  lemma {:induction false} TypesOut(roles: seq<string>, i: nat, k: nat)
    requires i < |roles| && k <= |roles[i]|
    ensures Run(roles, State(i, roles[i][..k], false), |roles[i]| - k)
            == Tick(State(i, roles[i], false), TypeDelay * (|roles[i]| - k))
    decreases |roles[i]| - k
  {
    var w := roles[i];
    if k == |w| {
      assert w[..k] == w;
    } else {
      assert w[..k] + [w[k]] == w[..k + 1];
      TypesOut(roles, i, k + 1);
    }
  }

  /** From a prefix of length `k` while deleting, the text is erased at 35 ms a character. */
  lemma {:induction false} ErasesAll(roles: seq<string>, i: nat, k: nat)
    requires i < |roles| && k <= |roles[i]|
    ensures Run(roles, State(i, roles[i][..k], true), k) == Tick(State(i, "", true), EraseDelay * k)
  {
    var w := roles[i];
    if k > 0 {
      assert w[..k][..k - 1] == w[..k - 1];
      ErasesAll(roles, i, k - 1);
    }
  }

  /** With the whole role shown, one step waits 2000 ms and turns to deleting. */
  lemma PausesWhenFull(roles: seq<string>, i: nat)
    requires i < |roles|
    ensures Run(roles, State(i, roles[i], false), 1) == Tick(State(i, roles[i], true), PauseDelay)
  {
    assert Run(roles, State(i, roles[i], true), 0) == Tick(State(i, roles[i], true), 0);
  }

  /** With nothing left to delete, one step moves to the next role at once. */
  lemma AdvancesWhenEmpty(roles: seq<string>, i: nat)
    requires i < |roles|
    ensures Run(roles, State(i, "", true), 1) == Tick(State((i + 1) % |roles|, "", false), 0)
  {
    var s4 := State((i + 1) % |roles|, "", false);
    assert Run(roles, s4, 0) == Tick(s4, 0);
  }

  /** Typing role `i` out from nothing and pausing on it: `n` steps of 60 ms, then 2000 ms. */
  lemma TypesAndPauses(roles: seq<string>, i: nat)
    requires i < |roles|
    ensures var n := |roles[i]|;
            Run(roles, State(i, "", false), n + 1) == Tick(State(i, roles[i], true), TypeDelay * n + PauseDelay)
  {
    var w := roles[i];
    var n := |w|;
    var s0 := State(i, "", false);
    assert Run(roles, s0, n) == Tick(State(i, w, false), TypeDelay * n) by {
      assert w[..0] == "" && w[..n] == w;
      TypesOut(roles, i, 0);
    }
    PausesWhenFull(roles, i);
    RunAdds(roles, s0, n, 1);
  }

  /** Typing role `i`, pausing and erasing it: `n` more steps of 35 ms end on an empty text, still deleting. */
  lemma TypesPausesAndErases(roles: seq<string>, i: nat)
    requires i < |roles|
    ensures var n := |roles[i]|;
            Run(roles, State(i, "", false), 2 * n + 1)
            == Tick(State(i, "", true), TypeDelay * n + PauseDelay + EraseDelay * n)
  {
    var w := roles[i];
    var n := |w|;
    var s0 := State(i, "", false);
    TypesAndPauses(roles, i);
    assert w[..n] == w;
    ErasesAll(roles, i, n);
    RunAdds(roles, s0, n + 1, n);
  }

  /**
   * A full cycle: starting on an empty text for role `i`, after typing the
   * role, pausing, erasing it and advancing, the machine shows an empty text
   * for the next role, and the cycle takes 95 ms per character plus 2000 ms.
   */
  lemma FullCycle(roles: seq<string>, i: nat)
    requires i < |roles|
    ensures var n := |roles[i]|;
            Run(roles, State(i, "", false), 2 * n + 2)
            == Tick(State((i + 1) % |roles|, "", false), (TypeDelay + EraseDelay) * n + PauseDelay)
  {
    var n := |roles[i]|;
    TypesPausesAndErases(roles, i);
    AdvancesWhenEmpty(roles, i);
    RunAdds(roles, State(i, "", false), 2 * n + 1, 1);
    assert (TypeDelay + EraseDelay) * n == TypeDelay * n + EraseDelay * n;
  }

  /** The hook's state as an object updated by timer ticks. */
  class Typewriter {
    var roleIndex: nat
    var displayed: string
    var deleting: bool

    ghost predicate Valid() reads this {
      WellFormed(Roles, Current())
    }

    function Current(): State reads this {
      State(roleIndex, displayed, deleting)
    }

    constructor ()
      ensures Valid() && Current() == Initial
    {
      roleIndex, displayed, deleting := 0, "", false;
    }

    /** One run of the effect followed by its timer firing; returns the delay waited. */
    method Step() returns (delay: nat)
      requires Valid()
      modifies this
      ensures Valid()
      ensures Next(Roles, old(Current())) == Some(Tick(Current(), delay))
    {
      var current := Roles[roleIndex];
      if !deleting && |displayed| < |current| {
        displayed := current[..|displayed| + 1];
        delay := TypeDelay;
      } else if !deleting && |displayed| == |current| {
        deleting := true;
        delay := PauseDelay;
      } else if deleting && |displayed| > 0 {
        displayed := displayed[..|displayed| - 1];
        delay := EraseDelay;
      } else {
        deleting := false;
        roleIndex := (roleIndex + 1) % |Roles|;
        delay := 0;
      }
    }
  }
}
