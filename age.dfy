/** Derivation of a respondent's age from the birth-date cell (calcular_idade). */
module Age {
  import opened Sheet

  /** The `n`-th anniversary of `birth` falls on or before `today`. */
  predicate AnniversaryReached(birth: Date, today: Date, n: int)
  {
    OnOrBefore(Date(birth.year + n, birth.month, birth.day), today)
  }

  /** Exact calendar age on `today` of someone born on the date in `birth`;
      None when the cell does not hold a date.  `today` replaces the wall clock. */
  function CalcAge(birth: Cell, today: Date): (r: Option<int>)
    ensures r.None? <==> !birth.DateTime?
    ensures !Truthy(birth) ==> r.None?
    ensures r.Some? ==> AnniversaryReached(birth.date, today, r.value)
    ensures r.Some? ==> !AnniversaryReached(birth.date, today, r.value + 1)
  {
    if !Truthy(birth) || !birth.DateTime? then None
    else
      var b := birth.date;
      var notYet := today.month < b.month || (today.month == b.month && today.day < b.day);
      Some(today.year - b.year - (if notYet then 1 else 0))
  }

  /** The age is the one number of anniversaries reached: any `n` whose
      anniversary is reached while the next one is not equals the age. */
  lemma AgeIsUnique(birth: Date, time: nat, today: Date, n: int)
    requires AnniversaryReached(birth, today, n)
    requires !AnniversaryReached(birth, today, n + 1)
    ensures CalcAge(DateTime(birth, time), today) == Some(n)
  {
  }

  /** On the birthday itself the full year difference is returned; on any
      earlier day of that calendar year one less. */
  lemma BirthdayBoundary(birth: Date, time: nat, today: Date)
    ensures today.month == birth.month && today.day == birth.day ==>
              CalcAge(DateTime(birth, time), today) == Some(today.year - birth.year)
    ensures (today.month < birth.month || (today.month == birth.month && today.day < birth.day)) ==>
              CalcAge(DateTime(birth, time), today) == Some(today.year - birth.year - 1)
  {
  }

  /** A later "today" never gives a smaller age. */
  lemma AgeNeverDecreases(birth: Date, time: nat, t1: Date, t2: Date)
    requires OnOrBefore(t1, t2)
    ensures CalcAge(DateTime(birth, time), t1).value <= CalcAge(DateTime(birth, time), t2).value
  {
  }
}
