/** The planner's value types: days of the week, list filters and tasks. */
module TodoTypes {
  import opened Wrappers

  /** `DayOfWeek`: the seven Portuguese day names, as an enumeration. */
  datatype Day = Segunda | Terca | Quarta | Quinta | Sexta | Sabado | Domingo

  /** The string literal that stands for each day in the source's union type. */
  function Name(d: Day): string {
    match d
    case Segunda => "Segunda"
    case Terca => "Terça"
    case Quarta => "Quarta"
    case Quinta => "Quinta"
    case Sexta => "Sexta"
    case Sabado => "Sábado"
    case Domingo => "Domingo"
  }

  /** Reading a string as a `DayOfWeek`: defined exactly on the seven names. */
  function ParseDay(s: string): (r: Option<Day>)
    ensures r.Some? ==> Name(r.value) == s
  {
    if s == "Segunda" then Some(Segunda)
    else if s == "Terça" then Some(Terca)
    else if s == "Quarta" then Some(Quarta)
    else if s == "Quinta" then Some(Quinta)
    else if s == "Sexta" then Some(Sexta)
    else if s == "Sábado" then Some(Sabado)
    else if s == "Domingo" then Some(Domingo)
    else None
  }

  /** Every day's name parses back to that day, so distinct days have distinct names. */
  lemma NameRoundTrip(d: Day)
    ensures ParseDay(Name(d)) == Some(d)
  {
  }

  lemma NameInjective(d: Day, e: Day)
    ensures Name(d) == Name(e) ==> d == e
  {
    NameRoundTrip(d);
    NameRoundTrip(e);
  }

  /** `FilterType`. */
  datatype FilterType = All | Pending | Completed

  type Id = nat

  /** `Todo`: one task. */
  datatype Todo = Todo(id: Id, text: string, completed: bool, day: Day)

  /** Position of a day in the Monday-first week. */
  function Position(d: Day): (i: nat)
    ensures i < 7
  {
    match d
    case Segunda => 0
    case Terca => 1
    case Quarta => 2
    case Quinta => 3
    case Sexta => 4
    case Sabado => 5
    case Domingo => 6
  }

  /** `DAYS_OF_WEEK`: every day exactly once, Monday first and Sunday last. */
  function DaysOfWeek(): (r: seq<Day>)
    ensures |r| == 7
    ensures r[0] == Segunda && r[6] == Domingo
    ensures forall i, j :: 0 <= i < j < 7 ==> r[i] != r[j]
    ensures forall d: Day :: d in r && r[Position(d)] == d
  {
    var r := [Segunda, Terca, Quarta, Quinta, Sexta, Sabado, Domingo];
    forall d: Day ensures d in r {
      assert r[Position(d)] == d;
    }
    r
  }

  /** What `Date.prototype.getDay()` returns: 0 is Sunday, 6 is Saturday. */
  type Weekday = i: int | 0 <= i < 7

  /** The Sunday-first string list that `getDayOfWeekFromDate` indexes into. */
  function SundayFirstNames(): seq<string> {
    ["Domingo", "Segunda", "Terça", "Quarta", "Quinta", "Sexta", "Sábado"]
  }

  /**
   * `getDayOfWeekFromDate`, given the date's `getDay()`. The string found at
   * that index is a day name (the `as DayOfWeek` cast is sound) and the day
   * sits six places further along the Monday-first week.
   */
  function DayOfWeekFromDate(weekday: Weekday): (d: Day)
    ensures ParseDay(SundayFirstNames()[weekday]) == Some(d)
    ensures d == DaysOfWeek()[(weekday + 6) % 7]
    ensures weekday == 0 <==> d == Domingo
  {
    var names := SundayFirstNames();
    match ParseDay(names[weekday])
    case Some(d) => d
    case None => assert false; Segunda
  }

  /** Different weekday indices name different days. */
  lemma DayOfWeekFromDateInjective(i: Weekday, j: Weekday)
    requires DayOfWeekFromDate(i) == DayOfWeekFromDate(j)
    ensures i == j
  {
  }

  /** Every day is the name of exactly one weekday index. */
  lemma DayOfWeekFromDateOnto(d: Day)
    ensures exists i: Weekday :: DayOfWeekFromDate(i) == d
  {
    assert d in DaysOfWeek();
    var k :| 0 <= k < 7 && DaysOfWeek()[k] == d;
    var i: Weekday := (k + 1) % 7;
    assert DayOfWeekFromDate(i) == d;
  }
}
