/**
 * The state of the PostCheckout screen: `timeLeft` and `lockerCombo`, and the
 * effect that runs at mount and again after every change of `timeLeft`. Each
 * run draws a fresh locker combination and, while time is left, arms a
 * one-second interval whose callback lowers `timeLeft` by one. A tick stands
 * for one firing of that interval followed by the effect run it triggers.
 */
module Countdown {
  import opened Decimal
  import opened LockerCombo
  import ClockDisplay

  /** The countdown's starting value in seconds. */
  const InitialSeconds: int := 60

  class PostCheckout {
    var timeLeft: int
    var lockerCombo: string
    /** Whether the effect has run (the component has mounted). */
    ghost var mounted: bool
    /** The ticks since mount. */
    ghost var ticks: nat

    /**
     * Object invariant: the time left is the start value minus the ticks
     * so far and never negative; before mount the combination is the initial
     * empty text, after mount it is a five-digit combination.
     */
    ghost predicate Valid()
      reads this
    {
      0 <= timeLeft <= InitialSeconds &&
      timeLeft == InitialSeconds - ticks &&
      (mounted ==> IsCombo(lockerCombo)) &&
      (!mounted ==> lockerCombo == "" && ticks == 0)
    }

    /** The initial component state: `useState('')` and `useState(60)`. */
    constructor ()
      ensures Valid() && !mounted
      ensures timeLeft == InitialSeconds && lockerCombo == ""
    {
      timeLeft := InitialSeconds;
      lockerCombo := "";
      mounted := false;
      ticks := 0;
    }

    /**
     * One run of the effect: draws a new combination, after which the
     * component counts as mounted. Whether it then arms the interval depends
     * on `timeLeft`, which it leaves alone. The effect runs only at mount and
     * after `timeLeft` changes, so only `Mount` and `Tick` call this.
     */
    method RunEffect(draws: seq<nat>)
      requires Valid()
      requires |draws| == ComboLength && AreDigitDraws(draws)
      modifies this`lockerCombo, this`mounted
      ensures Valid() && mounted
      ensures lockerCombo == ComboOf(draws)
    {
      lockerCombo := BuildCombo(draws);
      mounted := true;
    }

    /** The first effect run, at mount: combination drawn, 60 seconds left. */
    method Mount(draws: seq<nat>)
      requires Valid() && !mounted
      requires |draws| == ComboLength && AreDigitDraws(draws)
      modifies this
      ensures Valid() && mounted && ticks == 0
      ensures timeLeft == InitialSeconds
      ensures lockerCombo == ComboOf(draws)
    {
      RunEffect(draws);
    }

    /** Whether an interval is armed, that is, whether a tick can happen. */
    ghost predicate Counting()
      reads this
    {
      mounted && timeLeft > 0
    }

    /**
     * One firing of the interval: `timeLeft` drops by exactly one, and the
     * effect, which depends on `timeLeft`, runs again and replaces the
     * combination with one built from the new draws.
     */
    method Tick(draws: seq<nat>)
      requires Valid() && Counting()
      requires |draws| == ComboLength && AreDigitDraws(draws)
      modifies this
      ensures Valid() && mounted == old(mounted) && ticks == old(ticks) + 1
      ensures timeLeft == old(timeLeft) - 1
      ensures lockerCombo == ComboOf(draws)
    {
      timeLeft := timeLeft - 1;
      ticks := ticks + 1;
      RunEffect(draws);
    }

    /** The timer text on screen. */
    function Display(): (s: string)
      reads this
      requires Valid()
      ensures |s| == 5 && s[2] == ':'
      ensures ClockDisplay.ParseClock(s) == ClockDisplay.Some(timeLeft)
      ensures AllDigits(s[..2]) && ParseDecimal(s[..2]) == ClockDisplay.Minutes(timeLeft)
      ensures AllDigits(s[3..]) && ParseDecimal(s[3..]) == ClockDisplay.Seconds(timeLeft)
    {
      ClockDisplay.FormatClock(timeLeft)
    }

    /**
     * Whether "Your drink is ready!" is shown. After mount, it is shown exactly
     * when no further tick can happen, and exactly when the timer reads 00:00.
     */
    predicate Ready()
      reads this
      requires Valid()
      ensures mounted ==> (Ready() <==> !Counting())
      ensures Ready() <==> Display() == "00:00"
      ensures Ready() <==> ticks == InitialSeconds
    {
      ClockDisplay.ShowsReady(timeLeft)
    }
  }

  /**
   * A screen mounted and then ticked `k` times, k at most 60: `timeLeft` is
   * `60 - k` and the combination is the one built from the last draws.
   */
  method RunCountdown(mountDraws: seq<nat>, tickDraws: seq<seq<nat>>) returns (screen: PostCheckout)
    requires |mountDraws| == ComboLength && AreDigitDraws(mountDraws)
    requires |tickDraws| <= InitialSeconds
    requires forall i :: 0 <= i < |tickDraws| ==> |tickDraws[i]| == ComboLength && AreDigitDraws(tickDraws[i])
    ensures fresh(screen) && screen.Valid() && screen.mounted
    ensures screen.timeLeft == InitialSeconds - |tickDraws|
    ensures screen.lockerCombo == ComboOf(if tickDraws == [] then mountDraws else tickDraws[|tickDraws| - 1])
    ensures |tickDraws| == InitialSeconds <==> screen.Ready()
  {
    screen := new PostCheckout();
    screen.Mount(mountDraws);
    for k := 0 to |tickDraws|
      invariant screen.Valid() && screen.mounted
      invariant screen.timeLeft == InitialSeconds - k
      invariant screen.lockerCombo == ComboOf(if k == 0 then mountDraws else tickDraws[k - 1])
    {
      screen.Tick(tickDraws[k]);
    }
  }
}
