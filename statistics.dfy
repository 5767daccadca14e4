/**
 * The statistics panel: which tasks a reporting mode counts, the derived
 * counts and percentage, the mode's heading and the summary message.
 */
module Statistics {
  import opened Wrappers
  import opened Seqs
  import opened TodoTypes
  import opened TodoStore

  /** `StatMode`. */
  datatype StatMode = Daily | Weekly | Monthly

  /** The panel's own Sunday-first `dayMapping`. */
  function DayMapping(): seq<string> {
    ["Domingo", "Segunda", "Terça", "Quarta", "Quinta", "Sexta", "Sábado"]
  }

  /** The daily branch's test: the task's day, as a string, is `name`. */
  function DayNamed(name: string): Todo -> bool {
    (t: Todo) => Name(t.day) == name
  }

  /**
   * The panel's `getFilteredTodos`, given `now.getDay()`: daily keeps the
   * tasks of today's day name, weekly and monthly keep everything.
   */
  function StatTodos(todos: seq<Todo>, mode: StatMode, weekday: Weekday): (r: seq<Todo>)
    ensures mode != Daily ==> r == todos
    ensures mode == Daily ==> forall t :: t in r <==> t in todos && Name(t.day) == DayMapping()[weekday]
  {
    match mode
    case Daily =>
      var p := DayNamed(DayMapping()[weekday]);
      forall t | t in todos && Name(t.day) == DayMapping()[weekday] ensures t in Filter(todos, p) {
        FilterKeeps(todos, p, t);
      }
      Filter(todos, p)
    case Weekly => todos
    case Monthly => todos
  }

  /** Daily mode counts exactly the tasks of `getDayOfWeekFromDate(now)`, in order. */
  lemma DailyIsToday(todos: seq<Todo>, weekday: Weekday)
    ensures StatTodos(todos, Daily, weekday) == TodosForDay(todos, DayOfWeekFromDate(weekday))
  {
    var today := DayOfWeekFromDate(weekday);
    assert DayMapping() == SundayFirstNames();
    forall t: Todo ensures DayNamed(DayMapping()[weekday])(t) == OnDay(today)(t) {
      NameInjective(t.day, today);
    }
    FilterCongruent(todos, DayNamed(DayMapping()[weekday]), OnDay(today));
  }

  /** Weekly and monthly modes count the whole, unfiltered collection. */
  lemma WeeklyMonthlyAll(todos: seq<Todo>, weekday: Weekday)
    ensures StatTodos(todos, Weekly, weekday) == todos
    ensures StatTodos(todos, Monthly, weekday) == todos
  {
  }

  /** `a * t <= b * t` with `t > 0` gives `a <= b`. */
  lemma MulCancel(a: int, b: int, t: int)
    requires t > 0 && a * t <= b * t
    ensures a <= b
  {
  }

  lemma MulLess(a: int, b: int, t: int)
    requires t > 0 && a * t < b * t
    ensures a < b
  {
  }

  /**
   * `Math.round(n / d)` for `d > 0`: the integer `r` with
   * `r - 1/2 <= n/d < r + 1/2`, where halves round up.
   */
  function RoundDiv(n: nat, d: nat): (r: int)
    requires d > 0
    ensures 2 * r * d <= 2 * n + d < 2 * (r + 1) * d
  {
    var q := (2 * n + d) / (2 * d);
    var rem := (2 * n + d) % (2 * d);
    assert 2 * n + d == q * (2 * d) + rem && 0 <= rem < 2 * d;
    assert 2 * q * d == q * (2 * d);
    assert 2 * (q + 1) * d == q * (2 * d) + 2 * d;
    q
  }

  /**
   * The progress percentage: `Math.round(completed / total * 100)`, or 0 when
   * there is nothing to count.
   */
  function Percentage(completed: nat, total: nat): (p: int)
    requires completed <= total
    ensures total == 0 ==> p == 0
    ensures total > 0 ==> 0 <= p <= 100
    ensures total > 0 ==> 2 * p * total <= 200 * completed + total < 2 * (p + 1) * total
    ensures completed == 0 ==> p == 0
    ensures 0 < total == completed ==> p == 100
  {
    if total > 0 then
      var p := RoundDiv(100 * completed, total);
      RoundedPercentBounds(completed, total, p);
      p
    else
      0
  }

  /** What the rounding characterisation implies for a percentage of a non-empty list. */
  lemma RoundedPercentBounds(completed: nat, total: nat, p: int)
    requires 0 < total && completed <= total
    requires 2 * p * total <= 200 * completed + total < 2 * (p + 1) * total
    ensures 0 <= p <= 100
    ensures completed == 0 ==> p == 0
    ensures completed == total ==> p == 100
  {
    var lo, hi := 2 * p, 2 * (p + 1);
    assert 200 * completed <= 200 * total;
    MulCancel(lo, 201, total);
    MulLess(1, hi, total);
    if completed == 0 {
      MulCancel(lo, 1, total);
    }
    if completed == total {
      MulLess(201, hi, total);
    }
  }

  /** The four figures on the panel. */
  datatype Summary = Summary(total: nat, completed: nat, pending: int, percentage: int)

  /** The figures for `total` counted tasks of which `completed` are done. */
  function SummaryOf(total: nat, completed: nat): (s: Summary)
    requires completed <= total
    ensures s.total == total && s.completed == completed
    ensures 0 <= s.pending == total - completed
    ensures s.percentage == Percentage(completed, total)
  {
    Summary(total, completed, total - completed, Percentage(completed, total))
  }

  /** The panel's figures for the tasks of a reporting mode. */
  function Summarize(todos: seq<Todo>, mode: StatMode, weekday: Weekday): (s: Summary)
    ensures s.total == |StatTodos(todos, mode, weekday)|
    ensures s.completed == |Filter(StatTodos(todos, mode, weekday), IsCompleted())|
    ensures s.completed <= s.total && s.pending == s.total - s.completed
    ensures s.total == 0 ==> s.percentage == 0
    ensures s.total > 0 ==> 0 <= s.percentage <= 100
  {
    var counted := StatTodos(todos, mode, weekday);
    SummaryOf(|counted|, |Filter(counted, IsCompleted())|)
  }

  /** Every counted task done means 100 percent. */
  lemma AllDoneIsHundred(todos: seq<Todo>, mode: StatMode, weekday: Weekday)
    requires StatTodos(todos, mode, weekday) != []
    requires forall t :: t in StatTodos(todos, mode, weekday) ==> t.completed
    ensures Summarize(todos, mode, weekday).percentage == 100
  {
    FilterAll(StatTodos(todos, mode, weekday), IsCompleted());
  }

  /** `getModeLabel`: the panel's heading names the mode, and each heading names one mode. */
  function ModeLabel(mode: StatMode): (r: string)
    ensures r == "Hoje" <==> mode == Daily
    ensures r == "Esta Semana" <==> mode == Weekly
    ensures r == "Este Mês" <==> mode == Monthly
  {
    match mode
    case Daily => "Hoje"
    case Weekly => "Esta Semana"
    case Monthly => "Este Mês"
  }

  /** The three summary messages. */
  datatype Message = Congratulations | KeepGoing | YouCanDoIt

  /** The text each message shows; no two messages show the same text. */
  function MessageText(m: Message): (r: string)
    ensures r == "🎉 Parabéns! Todas as tarefas concluídas!" <==> m == Congratulations
    ensures r == "💪 Continue assim! Você está no caminho certo!" <==> m == KeepGoing
    ensures r == "🚀 Vamos lá! Você consegue!" <==> m == YouCanDoIt
  {
    match m
    case Congratulations => "🎉 Parabéns! Todas as tarefas concluídas!"
    case KeepGoing => "💪 Continue assim! Você está no caminho certo!"
    case YouCanDoIt => "🚀 Vamos lá! Você consegue!"
  }

  /**
   * The summary message as written: shown only when something is counted;
   * congratulations at exactly 100 percent, encouragement from 50, the last
   * message below 50.
   */
  function SummaryMessageAsWritten(s: Summary): (r: Option<Message>)
    ensures r.Some? <==> s.total > 0
    ensures r == Some(Congratulations) <==> s.total > 0 && s.percentage == 100
    ensures r == Some(YouCanDoIt) <==> s.total > 0 && s.percentage < 50
  {
    if s.total > 0 then
      Some(if s.percentage == 100 then Congratulations
           else if s.percentage >= 50 then KeepGoing
           else YouCanDoIt)
    else None
  }

  /**
   * Because the percentage is rounded, 200 of 201 tasks already show 100
   * percent, and the as-written message announces that all tasks are done.
   */
  lemma CongratulatesTooEarly()
    ensures var s := SummaryOf(201, 200);
      s.completed < s.total && SummaryMessageAsWritten(s) == Some(Congratulations)
  {
    var p := Percentage(200, 201);
    assert 2 * p * 201 <= 200 * 200 + 201 < 2 * (p + 1) * 201;
    assert 2 * 99 * 201 < 200 * 200 + 201;
  }

  /**
   * The summary message with the congratulation tied to its wording: it is
   * shown exactly when every counted task is completed.
   */
  function SummaryMessage(s: Summary): (m: Option<Message>)
    ensures m.Some? <==> s.total > 0
    ensures m == Some(Congratulations) <==> 0 < s.total == s.completed
  {
    if s.total > 0 then
      Some(if s.completed == s.total then Congratulations
           else if s.percentage >= 50 then KeepGoing
           else YouCanDoIt)
    else None
  }

  /** Both versions agree whenever the percentage is below 100 or the list is all done. */
  lemma MessagesAgree(total: nat, completed: nat)
    requires completed <= total
    requires Percentage(completed, total) < 100 || completed == total
    ensures SummaryMessage(SummaryOf(total, completed)) == SummaryMessageAsWritten(SummaryOf(total, completed))
  {
  }

  /** With nothing done yet, both versions show the last message. */
  lemma NothingDoneMessage(total: nat)
    requires total > 0
    ensures SummaryMessage(SummaryOf(total, 0)) == Some(YouCanDoIt)
    ensures SummaryMessageAsWritten(SummaryOf(total, 0)) == Some(YouCanDoIt)
  {
  }

  /**
   * The corrected message encourages at half or more, but not all, done. As
   * written, the panel congratulates instead once the rounded percentage
   * reaches 100 (see `CongratulatesTooEarly`).
   */
  lemma HalfDoneMessage(total: nat, completed: nat)
    requires 0 < total && completed < total && 2 * completed >= total
    ensures SummaryMessage(SummaryOf(total, completed)) == Some(KeepGoing)
  {
    var p := Percentage(completed, total);
    var hi := 2 * (p + 1);
    assert 101 * total <= 200 * completed + total;
    MulLess(101, hi, total);
  }

  /** As written, the panel encourages when the rounded percentage is from 50 up to 99. */
  lemma KeepGoingAsWritten(total: nat, completed: nat)
    requires 0 < total && completed <= total
    requires 50 <= Percentage(completed, total) < 100
    ensures SummaryMessageAsWritten(SummaryOf(total, completed)) == Some(KeepGoing)
  {
  }
}
