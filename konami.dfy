/**
 * The Konami-code easter egg of the page footer (`useKonamiCode` in
 * src/components/react/Footer.tsx).
 *
 * The hook keeps two pieces of state: the position `index` reached in the
 * fixed ten-key sequence and a one-way `activated` flag. Every keydown either
 * advances the position (when the key is the expected one), completes the
 * sequence, or resets the position to 0. A reset does NOT re-test the
 * offending key against the first element of the sequence, so the automaton
 * is a strict prefix matcher and not a substring matcher.
 */
module Konami {

  /** A key name as reported by `KeyboardEvent.key`. */
  type Key = string

  const KONAMI: seq<Key> := [
    "ArrowUp", "ArrowUp", "ArrowDown", "ArrowDown",
    "ArrowLeft", "ArrowRight", "ArrowLeft", "ArrowRight",
    "b", "a"
  ]

  /** The two `useState` variables of the hook. */
  datatype State = State(index: nat, activated: bool)

  const Initial: State := State(0, false)

  /** The index is a position strictly inside the sequence. */
  predicate InRange(s: State) {
    s.index < |KONAMI|
  }

  /**
   * One keydown event. An index outside the sequence reads JavaScript's
   * `undefined`, which no key equals, so it behaves like a mismatch.
   */
  function Step(s: State, key: Key): (r: State)
    // the index never leaves the sequence
    ensures !s.activated ==> InRange(r)
    ensures InRange(s) ==> InRange(r)
    // once activated, every key is ignored
    ensures s.activated ==> r == s
    // activation is one-way
    ensures s.activated ==> r.activated
    // the expected key, short of the end, advances by exactly one
    ensures !s.activated && s.index + 1 < |KONAMI| && key == KONAMI[s.index]
            ==> r == State(s.index + 1, false)
    // any other key resets to 0, even one equal to the first element
    ensures !s.activated && !(s.index < |KONAMI| && key == KONAMI[s.index])
            ==> r == State(0, false)
    // the expected key at the last position activates and puts the index back to 0
    ensures !s.activated && s.index == |KONAMI| - 1 && key == KONAMI[s.index]
            ==> r == State(0, true)
    // activation only happens on the final "a", and leaves the index at 0
    ensures !s.activated && r.activated
            ==> key == "a" && s.index == |KONAMI| - 1 && r.index == 0
  {
    if s.activated then s
    else if s.index < |KONAMI| && key == KONAMI[s.index] then
      var next := s.index + 1;
      if next == |KONAMI| then State(0, true) else State(next, false)
    else State(0, false)
  }

  /** The state after feeding `keys`, oldest first, starting from `s`. */
  function Run(s: State, keys: seq<Key>): State
    decreases |keys|
  {
    if keys == [] then s
    else Step(Run(s, keys[..|keys| - 1]), keys[|keys| - 1])
  }

  /** `keys` holds the complete sequence ending just before position `j`. */
  predicate CodeEndsAt(keys: seq<Key>, j: int) {
    |KONAMI| <= j <= |keys| && keys[j - |KONAMI| .. j] == KONAMI
  }

  /** Feeding the first `k` keys of the sequence reaches position `k`. */
  lemma {:induction false} PrefixAdvances(k: nat)
    requires k < |KONAMI|
    ensures Run(Initial, KONAMI[..k]) == State(k, false)
  {
    if k > 0 {
      PrefixAdvances(k - 1);
      assert KONAMI[..k][..k - 1] == KONAMI[..k - 1];
    }
  }

  /** Feeding exactly the ten keys activates and puts the index back to 0. */
  lemma FullSequenceActivates()
    ensures Run(Initial, KONAMI) == State(0, true)
  {
    PrefixAdvances(|KONAMI| - 1);
    assert KONAMI[..|KONAMI|][..|KONAMI| - 1] == KONAMI[..|KONAMI| - 1];
    assert KONAMI[..|KONAMI|] == KONAMI;
  }

  /** After activation no sequence of keys changes the state. */
  lemma {:induction false} ActivatedIsFinal(s: State, keys: seq<Key>)
    requires s.activated
    ensures Run(s, keys) == s
  {
    if keys != [] {
      ActivatedIsFinal(s, keys[..|keys| - 1]);
    }
  }

  /** The index stays inside the sequence from any valid start. */
  lemma {:induction false} RunStaysInRange(s: State, keys: seq<Key>)
    requires InRange(s)
    ensures InRange(Run(s, keys))
  {
    if keys != [] {
      RunStaysInRange(s, keys[..|keys| - 1]);
    }
  }

  /**
   * While not activated, the last `index` keys fed are exactly the first
   * `index` keys of the sequence.
   */
  lemma {:induction false} MatchedPrefixIsSuffix(keys: seq<Key>)
    ensures var r := Run(Initial, keys);
            !r.activated ==> r.index <= |keys| && keys[|keys| - r.index..] == KONAMI[..r.index]
  {
    if keys != [] {
      var ks, k := keys[..|keys| - 1], keys[|keys| - 1];
      assert keys == ks + [k];
      var p := Run(Initial, ks);
      MatchedPrefixIsSuffix(ks);
      var r := Step(p, k);
      if !r.activated && r.index > 0 {
        assert !p.activated;
        assert r.index == p.index + 1 && k == KONAMI[p.index];
        assert keys[|keys| - r.index..] == ks[|ks| - p.index..] + [k];
        assert KONAMI[..r.index] == KONAMI[..p.index] + [KONAMI[p.index]];
      }
    }
  }

  /**
   * Soundness of activation: if the easter egg is activated, the complete
   * sequence occurred as consecutive keys somewhere in the input.
   */
  lemma {:induction false} ActivationNeedsContiguousCode(keys: seq<Key>)
    ensures Run(Initial, keys).activated ==> exists j :: CodeEndsAt(keys, j)
  {
    if keys != [] && Run(Initial, keys).activated {
      var ks, k := keys[..|keys| - 1], keys[|keys| - 1];
      var p := Run(Initial, ks);
      if p.activated {
        ActivationNeedsContiguousCode(ks);
        var j :| CodeEndsAt(ks, j);
        assert keys[j - |KONAMI|..j] == ks[j - |KONAMI|..j];
        assert CodeEndsAt(keys, j);
      } else {
        MatchedPrefixIsSuffix(ks);
        assert p.index == |KONAMI| - 1 && k == KONAMI[|KONAMI| - 1];
        assert keys[|keys| - |KONAMI|..] == ks[|ks| - p.index..] + [k];
        assert KONAMI == KONAMI[..p.index] + [KONAMI[p.index]];
        assert CodeEndsAt(keys, |keys|);
      }
    }
  }

  /**
   * The converse fails: a third "ArrowUp" resets the index to 0 without
   * counting as a new first key, so this input does not activate although it
   * contains the complete sequence from its second key on.
   */
  lemma StutteredStartDoesNotActivate()
    ensures var keys := ["ArrowUp"] + KONAMI;
            CodeEndsAt(keys, |keys|) && Run(Initial, keys) == State(0, false)
  {
    var keys := ["ArrowUp"] + KONAMI;
    assert keys[|keys| - |KONAMI|..] == KONAMI;
    var three := ["ArrowUp", "ArrowUp", "ArrowUp"];
    assert keys[..3] == three;
    assert three[..2] == ["ArrowUp", "ArrowUp"];
    assert three[..2][..1] == ["ArrowUp"];
    assert three[..2][..1][..0] == [];
    assert Run(Initial, three[..2][..1]) == State(1, false);
    assert Run(Initial, three[..2]) == State(2, false);
    assert Run(Initial, three) == State(0, false);
    StaysResetOnNonUp(keys, 3);
  }

  /** From a reset position, keys other than "ArrowUp" keep the index at 0. */
  lemma {:induction false} StaysResetOnNonUp(keys: seq<Key>, n: nat)
    requires n <= |keys|
    requires Run(Initial, keys[..n]) == State(0, false)
    requires forall i :: n <= i < |keys| ==> keys[i] != "ArrowUp"
    ensures Run(Initial, keys) == State(0, false)
    decreases |keys| - n
  {
    if n < |keys| {
      assert keys[..n + 1][..n] == keys[..n];
      StaysResetOnNonUp(keys, n + 1);
    } else {
      assert keys[..n] == keys;
    }
  }

  /** The hook's state as an object updated by keydown events. */
  class KonamiCode {
    var index: nat
    var activated: bool

    ghost predicate Valid() reads this {
      InRange(Current())
    }

    function Current(): State reads this {
      State(index, activated)
    }

    constructor ()
      ensures Valid() && Current() == Initial
    {
      index := 0;
      activated := false;
    }

    /** The keydown listener. */
    method HandleKey(key: Key)
      requires Valid()
      modifies this
      ensures Valid()
      ensures Current() == Step(old(Current()), key)
    {
      if activated {
        return;
      }
      if key == KONAMI[index] {
        var next := index + 1;
        if next == |KONAMI| {
          activated := true;
          index := 0;
        } else {
          index := next;
        }
      } else {
        index := 0;
      }
    }
  }
}
