/**
 * The page that wires the store to the week view: it picks today's day on
 * mount, switches between a day's list and the statistics panel, shows the
 * task counts on the day buttons and chooses which tasks the view receives.
 */
module IndexPage {
  import opened Seqs
  import opened TodoTypes
  import opened TodoStore
  import DateUtils

  /** The count on a day button: `todos.filter((t) => t.day === day).length`. */
  function TodoCount(todos: seq<Todo>, d: Day): (n: nat)
    ensures n <= |todos|
    ensures n == 0 <==> forall t :: t in todos ==> t.day != d
  {
    var r := Filter(todos, (t: Todo) => t.day == d);
    forall t | t in todos && t.day == d ensures t in r {
      FilterKeeps(todos, (t: Todo) => t.day == d, t);
    }
    assert r != [] ==> r[0] in r;
    |r|
  }

  /** The button count is the length of the day's list. */
  lemma TodoCountIsDayLength(todos: seq<Todo>, d: Day)
    ensures TodoCount(todos, d) == |TodosForDay(todos, d)|
  {
    FilterCongruent(todos, (t: Todo) => t.day == d, OnDay(d));
  }

  /** The counts of the buttons for `days`, added up. */
  function CountOver(todos: seq<Todo>, days: seq<Day>): nat {
    if days == [] then 0
    else CountOver(todos, days[..|days| - 1]) + TodoCount(todos, days[|days| - 1])
  }

  /** One more task raises the counts over `days` by one exactly when its day is among them. */
  lemma {:induction false} CountOverSnoc(todos: seq<Todo>, t: Todo, days: seq<Day>)
    requires Distinct(days)
    ensures CountOver(todos + [t], days) == CountOver(todos, days) + (if t.day in days then 1 else 0)
  {
    if days != [] {
      var init, last := days[..|days| - 1], days[|days| - 1];
      assert Distinct(init);
      assert days == init + [last];
      CountOverSnoc(todos, t, init);
      FilterAppend(todos, [t], (u: Todo) => u.day == last);
      assert [t][..0] == [];
      assert t.day in days <==> t.day in init || t.day == last;
      assert !(t.day in init && t.day == last);
    }
  }

  /** The seven day buttons together count every task once. */
  lemma {:induction false} CountsCoverAll(todos: seq<Todo>)
    ensures CountOver(todos, DaysOfWeek()) == |todos|
  {
    if todos == [] {
      CountOverEmpty(DaysOfWeek());
    } else {
      var init, last := todos[..|todos| - 1], todos[|todos| - 1];
      assert todos == init + [last];
      CountsCoverAll(init);
      CountOverSnoc(init, last, DaysOfWeek());
    }
  }

  lemma {:induction false} CountOverEmpty(days: seq<Day>)
    ensures CountOver([], days) == 0
  {
    if days != [] {
      CountOverEmpty(days[..|days| - 1]);
    }
  }

  /** What the week view receives: everything for the statistics panel, else the day's filtered list. */
  function Displayed(todos: seq<Todo>, showStatistics: bool, currentDay: Day, filter: FilterType): (r: seq<Todo>)
    ensures showStatistics ==> r == todos
    ensures !showStatistics ==> forall t :: t in r <==> t in todos && Visible(currentDay, filter)(t)
  {
    if showStatistics then todos else FilteredTodos(todos, currentDay, filter)
  }

  /** Outside the statistics panel the view shows, in order, exactly the current day's tasks the filter admits. */
  lemma DisplayedIsVisible(todos: seq<Todo>, showStatistics: bool, currentDay: Day, filter: FilterType)
    ensures showStatistics ==> Displayed(todos, showStatistics, currentDay, filter) == todos
    ensures !showStatistics ==>
      Selection(Displayed(todos, showStatistics, currentDay, filter), todos, Visible(currentDay, filter))
  {
    if !showStatistics {
      FilteredTodosIsSelection(todos, currentDay, filter);
    }
  }

  class Page {
    const store: TodoList
    var showStatistics: bool

    ghost predicate Valid()
      reads this, store
    {
      store.Valid()
    }

    /** The page's first render: a fresh store and the day list, not the panel. */
    constructor ()
      ensures Valid() && fresh(store)
      ensures store.todos == [] && store.currentDay == Segunda && store.filter == All
      ensures !showStatistics
    {
      store := new TodoList();
      showStatistics := false;
    }

    /** The mount effect: select today's day, `now` standing for `new Date()`. */
    method Mount(now: DateUtils.DateTime)
      requires DateUtils.Valid(now)
      requires Valid()
      modifies store`currentDay
      ensures Valid() && store.currentDay == DayOfWeekFromDate(now.cal.weekday)
      ensures store.todos == old(store.todos) && showStatistics == old(showStatistics)
    {
      store.SetCurrentDay(DayOfWeekFromDate(now.cal.weekday));
    }

    /** `handleDayClick`: select the day and leave the statistics panel. */
    method HandleDayClick(d: Day)
      requires Valid()
      modifies this`showStatistics, store`currentDay
      ensures Valid() && store.currentDay == d && !showStatistics
      ensures store.todos == old(store.todos) && store.filter == old(store.filter)
      ensures DisplayedTodos() == FilteredTodos(store.todos, d, store.filter)
    {
      store.SetCurrentDay(d);
      showStatistics := false;
    }

    /** `handleStatisticsClick`: open the panel, keeping the selected day. */
    method HandleStatisticsClick()
      requires Valid()
      modifies this`showStatistics
      ensures Valid() && showStatistics
      ensures store.currentDay == old(store.currentDay) && store.todos == old(store.todos)
      ensures DisplayedTodos() == store.todos
    {
      showStatistics := true;
    }

    /** The tasks handed to the week view. */
    function DisplayedTodos(): (r: seq<Todo>)
      reads this, store
      ensures showStatistics ==> r == store.todos
      ensures !showStatistics ==> forall t :: t in r <==> t in store.todos && t.day == store.currentDay && Shows(store.filter)(t)
    {
      Displayed(store.todos, showStatistics, store.currentDay, store.filter)
    }

    /** `getTodoCount` for the day buttons. */
    function DayButtonCount(d: Day): (n: nat)
      reads this, store
      ensures n == |store.GetTodosForDay(d)|
    {
      TodoCountIsDayLength(store.todos, d);
      TodoCount(store.todos, d)
    }
  }
}
