/**
 The home button: home_poll sees the button's level once per poll and turns a press into one
 action, BACK when it is released or QUIT once it was held for longer than three seconds.
 */
module HomeButton {

  const HOME_HOLD_MICROS := 3_000_000
  const U64 := 0x1_0000_0000_0000_0000

  datatype Action = NoAction | Back | Quit

  /** One poll: the button level and the clock. */
  datatype Poll = Poll(down: bool, now: nat)

  ghost predicate Clocks(polls: seq<Poll>) { forall i :: 0 <= i < |polls| ==> polls[i].now < U64 }

  /** a - b on 64-bit unsigned integers. */
  function Sub64(a: nat, b: nat): nat
    requires a < U64 && b < U64
  {
    if a >= b then a - b else a + U64 - b
  }

  // ---------------------------------------------------------------------------
  // Presses
  // ---------------------------------------------------------------------------

  /** Where the press that poll k belongs to began. */
  function PressStart(polls: seq<Poll>, k: nat): (i: nat)
    requires k < |polls| && polls[k].down
    ensures i <= k && (i == 0 || !polls[i - 1].down) && forall m :: i <= m <= k ==> polls[m].down
  {
    if k > 0 && polls[k - 1].down then PressStart(polls, k - 1) else k
  }

  /** Poll k finds a press that began at poll i held too long. */
  predicate Long(polls: seq<Poll>, i: nat, k: nat)
    requires i < k < |polls| && polls[i].now < U64 && polls[k].now < U64
  {
    Sub64(polls[k].now, polls[i].now) > HOME_HOLD_MICROS
  }

  /** The first poll after i and before j that finds the press too long, or j. */
  function FirstLong(polls: seq<Poll>, i: nat, j: nat): (k: nat)
    requires i < j <= |polls| && Clocks(polls)
    ensures i < k <= j && (k < j ==> Long(polls, i, k)) && forall m :: i < m < k ==> !Long(polls, i, m)
  {
    if j == i + 1 then j
    else
      var k := FirstLong(polls, i, j - 1);
      if k < j - 1 || Long(polls, i, k) then k else j
  }

  /** What poll k should report. */
  ghost function ActionAt(polls: seq<Poll>, k: nat): Action
    requires k < |polls| && Clocks(polls)
  {
    if polls[k].down then
      var i := PressStart(polls, k);
      if i < k && FirstLong(polls, i, k) == k && Long(polls, i, k) then Quit else NoAction
    else if k > 0 && polls[k - 1].down then
      var i := PressStart(polls, k - 1);
      if FirstLong(polls, i, k) == k then Back else NoAction
    else NoAction
  }

  ghost predicate IsPress(polls: seq<Poll>, i: nat, j: nat) {
    i < j < |polls| && (i == 0 || !polls[i - 1].down) && (forall m :: i <= m < j ==> polls[m].down) && !polls[j].down
  }

  lemma {:induction false} PressStartIs(polls: seq<Poll>, i: nat, k: nat)
    requires i <= k < |polls| && (i == 0 || !polls[i - 1].down) && forall m :: i <= m <= k ==> polls[m].down
    ensures PressStart(polls, k) == i
  {
    if i < k {
      PressStartIs(polls, i, k - 1);
    }
  }

  lemma {:induction false} FirstLongIs(polls: seq<Poll>, i: nat, j: nat, k: nat)
    requires i < k <= j <= |polls| && Clocks(polls)
    requires (k < j ==> Long(polls, i, k)) && forall m :: i < m < k ==> !Long(polls, i, m)
    ensures FirstLong(polls, i, j) == k
  {
    var f := FirstLong(polls, i, j);
  }

  /**
   A press that began at poll i and was released at poll j yields exactly one action from i
   to j: QUIT at the first poll that finds it too long, or BACK at the release if none does.
   */
  lemma {:induction false} OneActionPerPress(polls: seq<Poll>, i: nat, j: nat, m: nat)
    requires Clocks(polls) && IsPress(polls, i, j) && i <= m <= j
    ensures ActionAt(polls, m) ==
            if m != FirstLong(polls, i, j) then NoAction else if m == j then Back else Quit
  {
    var first := FirstLong(polls, i, j);
    if m == j {
      PressStartIs(polls, i, j - 1);
    } else {
      PressStartIs(polls, i, m);
      if i < m <= first {
        FirstLongIs(polls, i, m, m);
      } else if first < m {
        FirstLongIs(polls, i, m, first);
      }
    }
  }

  /** When the clock does not go back, the press is QUIT exactly when its last poll is past the limit. */
  lemma {:induction false} QuitExactly(polls: seq<Poll>, i: nat, j: nat)
    requires Clocks(polls) && IsPress(polls, i, j)
    requires forall a, b :: 0 <= a < b < |polls| ==> polls[a].now <= polls[b].now
    ensures ActionAt(polls, j) == NoAction <==> polls[j - 1].now - polls[i].now > 3_000_000
  {
    var first := FirstLong(polls, i, j);
    OneActionPerPress(polls, i, j, j);
    if first < j {
      assert first == j - 1 || polls[first].now <= polls[j - 1].now;
    } else if i < j - 1 {
      assert !Long(polls, i, j - 1);
    }
  }

  /** More than three seconds have passed on a clock of 64 bits that may wrap. */
  predicate TooLong(from: nat, now: nat) { (now - from) % 0x1_0000_0000_0000_0000 > 3_000_000 }

  lemma LongIs(polls: seq<Poll>, i: nat, k: nat)
    requires Clocks(polls) && i < k < |polls|
    ensures Long(polls, i, k) <==> TooLong(polls[i].now, polls[k].now)
  {
    var d := polls[k].now - polls[i].now;
    if d < 0 {
      assert d % U64 == d + U64;
    }
  }

  /** For any clock: QUIT comes at a poll of a press exactly when it is the first to find the press too long. */
  lemma {:induction false} QuitAt(polls: seq<Poll>, i: nat, m: nat)
    requires Clocks(polls) && i < m < |polls| && (i == 0 || !polls[i - 1].down) && forall k :: i <= k <= m ==> polls[k].down
    ensures ActionAt(polls, m) ==
            if TooLong(polls[i].now, polls[m].now) && (forall k :: i < k < m ==> !TooLong(polls[i].now, polls[k].now))
            then Quit else NoAction
  {
    hide Long, TooLong;
    PressStartIs(polls, i, m);
    forall k | i < k <= m
      ensures Long(polls, i, k) <==> TooLong(polls[i].now, polls[k].now)
    {
      LongIs(polls, i, k);
    }
    var first := FirstLong(polls, i, m);
  }

  /** BACK comes at the release exactly when no poll of the press found it too long. */
  lemma {:induction false} BackAt(polls: seq<Poll>, i: nat, j: nat)
    requires Clocks(polls) && IsPress(polls, i, j)
    ensures ActionAt(polls, j) ==
            if forall k :: i < k < j ==> !TooLong(polls[i].now, polls[k].now) then Back else NoAction
  {
    hide Long, TooLong;
    PressStartIs(polls, i, j - 1);
    forall k | i < k < j
      ensures Long(polls, i, k) <==> TooLong(polls[i].now, polls[k].now)
    {
      LongIs(polls, i, k);
    }
    var first := FirstLong(polls, i, j);
  }

  /** Where a press begins and where none is, nothing is reported. */
  lemma QuietPoll(polls: seq<Poll>, k: nat)
    requires Clocks(polls) && k < |polls| && (k == 0 || !polls[k - 1].down)
    ensures ActionAt(polls, k) == NoAction
  {
    if polls[k].down {
      PressStartIs(polls, k, k);
    }
  }

  // ---------------------------------------------------------------------------
  // The program
  // ---------------------------------------------------------------------------

  class Home {
    var homeDownMicros: nat
    var homeHeld: bool
    var homeLongFired: bool

    constructor ()
      ensures homeDownMicros == 0 && !homeHeld && !homeLongFired
    {
      homeDownMicros, homeHeld, homeLongFired := 0, false, false;
    }

    /** The fields after the polls so far. */
    ghost predicate Tracks(polls: seq<Poll>)
      reads this
    {
      Clocks(polls) && homeHeld == (polls != [] && polls[|polls| - 1].down) &&
      if homeHeld then
        var i := PressStart(polls, |polls| - 1);
        homeDownMicros == polls[i].now && homeLongFired == (FirstLong(polls, i, |polls|) < |polls|)
      else !homeLongFired
    }

    method HomePoll(down: bool, now: nat, ghost before: seq<Poll>) returns (action: Action)
      requires Tracks(before) && now < U64
      modifies this
      ensures Tracks(before + [Poll(down, now)])
      ensures action == ActionAt(before + [Poll(down, now)], |before|)
    {
      ghost var polls := before + [Poll(down, now)];
      ghost var n := |before|;
      if homeHeld {
        SameHistory(before, polls);
      }
      action := NoAction;
      if down {
        if !homeHeld {
          homeHeld := true;
          homeLongFired := false;
          homeDownMicros := now;
        } else if !homeLongFired && Sub64(now, homeDownMicros) > HOME_HOLD_MICROS {
          homeLongFired := true;
          action := Quit;
        }
      } else {
        if homeHeld && !homeLongFired {
          action := Back;
        }
        homeHeld := false;
        homeLongFired := false;
      }
    }

    /** Any number of polls from the start. */
    method Run(polls: seq<Poll>) returns (actions: seq<Action>)
      requires Clocks(polls) && !homeHeld && !homeLongFired
      modifies this
      ensures |actions| == |polls| && forall k :: 0 <= k < |polls| ==> actions[k] == ActionAt(polls, k)
    {
      hide ActionAt, PressStart, FirstLong;
      actions := [];
      var n := 0;
      while n < |polls|
        invariant 0 <= n == |actions| <= |polls| && Tracks(polls[..n])
        invariant forall k :: 0 <= k < n ==> actions[k] == ActionAt(polls, k)
      {
        var action := HomePoll(polls[n].down, polls[n].now, polls[..n]);
        assert polls[..n] + [polls[n]] == polls[..n + 1];
        OnlyThePast(polls, n);
        actions := actions + [action];
        n := n + 1;
      }
    }
  }

  lemma {:induction false} SameStart(a: seq<Poll>, b: seq<Poll>, k: nat)
    requires k < |a| <= |b| && a == b[..|a|] && a[k].down
    ensures PressStart(a, k) == PressStart(b, k)
  {
    if k > 0 && a[k - 1].down {
      SameStart(a, b, k - 1);
    }
  }

  lemma {:induction false} SameLong(a: seq<Poll>, b: seq<Poll>, i: nat, j: nat)
    requires i < j <= |a| <= |b| && a == b[..|a|] && Clocks(b)
    ensures FirstLong(a, i, j) == FirstLong(b, i, j)
  {
    if j > i + 1 {
      SameLong(a, b, i, j - 1);
    }
  }

  lemma SameHistory(a: seq<Poll>, b: seq<Poll>)
    requires 0 < |a| <= |b| && a == b[..|a|] && Clocks(b) && a[|a| - 1].down
    ensures PressStart(a, |a| - 1) == PressStart(b, |a| - 1)
    ensures FirstLong(a, PressStart(a, |a| - 1), |a|) == FirstLong(b, PressStart(a, |a| - 1), |a|)
  {
    SameStart(a, b, |a| - 1);
    SameLong(a, b, PressStart(a, |a| - 1), |a|);
  }

  /** What a poll reports depends on the polls up to it only. */
  lemma OnlyThePast(polls: seq<Poll>, k: nat)
    requires k < |polls| && Clocks(polls)
    ensures ActionAt(polls[..k + 1], k) == ActionAt(polls, k)
  {
    var a := polls[..k + 1];
    if polls[k].down {
      SameStart(a, polls, k);
      var i := PressStart(polls, k);
      if i < k {
        SameLong(a, polls, i, k);
      }
    } else if k > 0 && polls[k - 1].down {
      SameStart(a, polls, k - 1);
      SameLong(a, polls, PressStart(polls, k - 1), k);
    }
  }
}
