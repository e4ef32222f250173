/** The button task of the calendar firmware (`key_update`): each press that
    survives the debounce delay moves the selected field one step round the
    cycle normal, year, month, day, hour, minute, second, normal, ... and
    publishes the new field index. */
module ModeCycler {
  import opened Channels

  /** Field 0 is normal running; 1..6 select year, month, day, hour, minute,
      second. */
  const MODE_COUNT: nat := 7

  /** What one falling edge turned out to be once the debounce delay had
      passed: `Held` when the level is still low (a confirmed press, after
      which the task waits for the release), `Bounce` when it is high again. */
  datatype Press = Bounce | Held

  /** `(current_mode + 1) % 7`, the step of a confirmed press. */
  function NextMode(mode: nat): (m: nat)
    ensures m < MODE_COUNT
    ensures mode < MODE_COUNT - 1 ==> m == mode + 1
    ensures mode == MODE_COUNT - 1 ==> m == 0
  {
    (mode + 1) % MODE_COUNT
  }

  /** The selected field after a sequence of presses. */
  function ModeAfter(mode: nat, presses: seq<Press>): (m: nat)
    requires mode < MODE_COUNT
    ensures m < MODE_COUNT
    decreases |presses|
  {
    if presses == [] then mode
    else if presses[0] == Held then ModeAfter(NextMode(mode), presses[1..])
    else ModeAfter(mode, presses[1..])
  }

  /** Number of confirmed presses. */
  function Confirmed(presses: seq<Press>): nat {
    if presses == [] then 0
    else (if presses[0] == Held then 1 else 0) + Confirmed(presses[1..])
  }

  /** Only confirmed presses count, and each advances the field by one modulo 7. */
  lemma {:induction false} ModeAfterCount(mode: nat, presses: seq<Press>)
    requires mode < MODE_COUNT
    ensures ModeAfter(mode, presses) == (mode + Confirmed(presses)) % MODE_COUNT
    decreases |presses|
  {
    if presses != [] {
      if presses[0] == Held {
        ModeAfterCount(NextMode(mode), presses[1..]);
        var c := Confirmed(presses[1..]);
        assert (NextMode(mode) + c) % 7 == (mode + 1 + c) % 7;
      } else {
        ModeAfterCount(mode, presses[1..]);
      }
    }
  }

  /** Seven confirmed presses, with any bounces between them, bring the
      selection back to where it started. */
  lemma FullCycle(mode: nat, presses: seq<Press>)
    requires mode < MODE_COUNT
    requires Confirmed(presses) == MODE_COUNT
    ensures ModeAfter(mode, presses) == mode
  {
    ModeAfterCount(mode, presses);
  }

  /** Presses that all bounce back before the debounce delay change nothing. */
  lemma BouncesIgnored(mode: nat, presses: seq<Press>)
    requires mode < MODE_COUNT
    requires forall k :: 0 <= k < |presses| ==> presses[k] == Bounce
    ensures ModeAfter(mode, presses) == mode
  {
    ModeAfterCount(mode, presses);
    NoneConfirmed(presses);
  }

  lemma {:induction false} NoneConfirmed(presses: seq<Press>)
    requires forall k :: 0 <= k < |presses| ==> presses[k] == Bounce
    ensures Confirmed(presses) == 0
  {
    if presses != [] {
      NoneConfirmed(presses[1..]);
    }
  }

  /** The task's state: `current_mode`. */
  class KeyTask {
    var mode: nat

    ghost predicate Valid()
      reads this
    {
      mode < MODE_COUNT
    }

    constructor ()
      ensures Valid() && mode == 0
    {
      mode := 0;
    }

    /** One iteration of the task loop, from the falling edge on. A bounce is
        dropped (`continue`); a confirmed press advances the mode and
        publishes it with clear-then-send. */
    method OnPress(p: Press, key: Channel<int>)
      requires Valid() && key.Valid()
      modifies this, key
      ensures Valid() && key.Valid()
      ensures p == Bounce ==> mode == old(mode) && key.items == old(key.items)
      ensures p == Held ==> mode == NextMode(old(mode)) && key.items == [mode as int]
    {
      if p == Bounce {
        return;
      }
      mode := NextMode(mode);
      key.Publish(mode as int);
    }

    /** The task loop over a finite run of presses. */
    method Run(presses: seq<Press>, key: Channel<int>)
      requires Valid() && key.Valid()
      modifies this, key
      ensures Valid() && key.Valid()
      ensures mode == ModeAfter(old(mode), presses)
      ensures Confirmed(presses) == 0 ==> key.items == old(key.items)
      ensures Confirmed(presses) > 0 ==> key.items == [mode as int]
    {
      var i := 0;
      while i < |presses|
        invariant 0 <= i <= |presses|
        invariant Valid() && key.Valid()
        invariant ModeAfter(old(mode), presses) == ModeAfter(mode, presses[i..])
        invariant Confirmed(presses[..i]) == 0 ==> key.items == old(key.items)
        invariant Confirmed(presses[..i]) > 0 ==> key.items == [mode as int]
      {
        ConfirmedSplit(presses, i);
        OnPress(presses[i], key);
        assert presses[i..][1..] == presses[i + 1..];
        i := i + 1;
      }
      assert presses[..|presses|] == presses;
    }
  }

  lemma {:induction false} ConfirmedSplit(presses: seq<Press>, i: nat)
    requires i < |presses|
    ensures Confirmed(presses[..i + 1]) == Confirmed(presses[..i]) + (if presses[i] == Held then 1 else 0)
    decreases i
  {
    if i > 0 {
      ConfirmedSplit(presses[1..], i - 1);
      assert presses[1..][..i] == presses[..i + 1][1..];
      assert presses[1..][..i - 1] == presses[..i][1..];
    }
  }
}
