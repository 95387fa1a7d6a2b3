// The simulation's calendar: a (year, month) period that the watcher agent
// advances once per round, and the loop guard `year < 2031` that every
// agent tests at the top of its round.

module Calendar {

  const MonthsPerYear: int := 12
  /** The period the simulation starts in: January 2025 (months count from 0). */
  const StartYear: int := 2025
  const StartMonth: int := 0
  /** The agents keep running while the year is below this one. */
  const EndYear: int := 2031

  datatype Period = Period(year: int, month: int)

  predicate ValidPeriod(p: Period) {
    0 <= p.month < MonthsPerYear
  }

  /** The loop guard shared by all agents: on a valid period it holds exactly
    * while the period comes before January of the end year. */
  predicate Running(p: Period): (running: bool)
    ensures ValidPeriod(p) ==> (running <==> MonthIndex(p) < MonthsPerYear * EndYear)
  {
    p.year < EndYear
  }

  /** The absolute number of months since year 0. */
  function MonthIndex(p: Period): (index: int) {
    MonthsPerYear * p.year + p.month
  }

  /** The period with a given absolute month number: the inverse of MonthIndex. */
  function PeriodOf(index: int): (p: Period)
    ensures ValidPeriod(p) && MonthIndex(p) == index
  {
    Period(index / MonthsPerYear, index % MonthsPerYear)
  }

  /** A valid period is determined by its month number. */
  lemma MonthIndexInjective(p: Period, q: Period)
    requires ValidPeriod(p) && ValidPeriod(q)
    requires MonthIndex(p) == MonthIndex(q)
    ensures p == q
  {
  }

  lemma PeriodOfMonthIndex(p: Period)
    requires ValidPeriod(p)
    ensures PeriodOf(MonthIndex(p)) == p
  {
  }

  /** The period after one round of the watcher. */
  function Next(p: Period): (r: Period)
    ensures MonthIndex(r) == MonthIndex(p) + 1
    ensures ValidPeriod(p) ==> ValidPeriod(r)
    ensures r.year != p.year <==> p.month == MonthsPerYear - 1
    ensures r.year == p.year || r.year == p.year + 1
  {
    if p.month + 1 == MonthsPerYear then Period(p.year + 1, 0)
    else Period(p.year, p.month + 1)
  }

  /** On valid periods the advance is the successor month. */
  lemma NextIsSuccessor(p: Period)
    requires ValidPeriod(p)
    ensures Next(p) == PeriodOf(MonthIndex(p) + 1)
  {
  }

  /** The period after `rounds` advances: that many months later, still a
    * valid period when it started as one. */
  function Advanced(p: Period, rounds: nat): (q: Period)
    ensures MonthIndex(q) == MonthIndex(p) + rounds
    ensures ValidPeriod(p) ==> ValidPeriod(q)
    decreases rounds
  {
    if rounds == 0 then p else Next(Advanced(p, rounds - 1))
  }

  /** On valid periods, `rounds` advances reach the period of the month
    * number `rounds` later. */
  lemma AdvancedIndex(p: Period, rounds: nat)
    requires ValidPeriod(p)
    ensures Advanced(p, rounds) == PeriodOf(MonthIndex(p) + rounds)
  {
    MonthIndexInjective(Advanced(p, rounds), PeriodOf(MonthIndex(p) + rounds));
  }

  /** How many rounds the agents run from period p: rounds are counted
    * while the guard holds, each one advancing the period. That is the
    * number of months up to January of the end year. */
  function RoundsLeft(p: Period): (rounds: nat)
    requires ValidPeriod(p)
    ensures rounds == if Running(p) then MonthsPerYear * EndYear - MonthIndex(p) else 0
    decreases MonthsPerYear * EndYear - MonthIndex(p)
  {
    if Running(p) then 1 + RoundsLeft(Next(p)) else 0
  }

  /** From a running period the guard holds before each of the RoundsLeft
    * advances, fails after the last one, and the last period is January of
    * the end year. */
  lemma GuardHoldsExactly(p: Period, rounds: nat)
    requires ValidPeriod(p) && Running(p)
    ensures rounds < RoundsLeft(p) <==> Running(Advanced(p, rounds))
    ensures Advanced(p, RoundsLeft(p)) == Period(EndYear, 0)
  {
    AdvancedIndex(p, rounds);
    AdvancedIndex(p, RoundsLeft(p));
    MonthIndexInjective(Advanced(p, RoundsLeft(p)), Period(EndYear, 0));
  }

  /** From January 2025 the simulation runs exactly 72 rounds and stops in
    * January 2031. */
  lemma SimulationLength()
    ensures RoundsLeft(Period(StartYear, StartMonth)) == 72
    ensures forall rounds: nat :: rounds < 72 ==> Running(Advanced(Period(StartYear, StartMonth), rounds))
    ensures Advanced(Period(StartYear, StartMonth), 72) == Period(2031, 0)
  {
    var start := Period(StartYear, StartMonth);
    forall rounds: nat | rounds < 72
      ensures Running(Advanced(start, rounds))
    {
      GuardHoldsExactly(start, rounds);
    }
    GuardHoldsExactly(start, 72);
  }

  /** The global NowYear/NowMonth pair, updated in place by the watcher. */
  class Clock {
    var year: int
    var month: int

    function Current(): (p: Period)
      reads this
    {
      Period(year, month)
    }

    ghost predicate Valid()
      reads this
    {
      ValidPeriod(Current())
    }

    /** The starting date set before the agents are launched. */
    constructor ()
      ensures Valid()
      ensures Current() == Period(StartYear, StartMonth)
    {
      month := StartMonth;
      year := StartYear;
    }

    /** Advance time by one month, wrapping into the next year. */
    method Advance()
      modifies this
      ensures Current() == Next(old(Current()))
      ensures old(Valid()) ==> Valid()
    {
      month := month + 1;
      if month == MonthsPerYear {
        month := 0;
        year := year + 1;
      }
    }

    /** The watcher's round loop with the concurrent parts left out: advance
      * the period while the guard holds, counting the rounds. */
    method RunWatcher() returns (rounds: nat)
      requires Valid()
      modifies this
      ensures Valid() && !Running(Current())
      ensures rounds == RoundsLeft(old(Current()))
      ensures Current() == Advanced(old(Current()), rounds)
    {
      rounds := 0;
      while Running(Current())
        invariant Valid()
        invariant Current() == Advanced(old(Current()), rounds)
        invariant rounds + RoundsLeft(Current()) == RoundsLeft(old(Current()))
        decreases MonthsPerYear * EndYear - MonthIndex(Current())
      {
        Advance();
        rounds := rounds + 1;
      }
    }
  }

  /** Set the starting date and run the watcher's loop to its end. */
  method Simulate() returns (rounds: nat, last: Period)
    ensures rounds == 72
    ensures last == Period(EndYear, 0)
  {
    var clock := new Clock();
    rounds := clock.RunWatcher();
    last := clock.Current();
    SimulationLength();
  }
}
