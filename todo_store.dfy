/**
 * The task store of the weekly planner (the `useTodoList` hook): the task
 * collection, the selected day and the list filter, with the validating
 * mutators and the day-scoped queries.
 *
 * Each mutator is specified by a pure function of the collection before the
 * call; the lemmas show that every one of them keeps `StoreInvariant`, whose
 * central clause says that no two tasks on one day have equal lower-cased
 * text.
 */
module TodoStore {
  import opened Wrappers
  import opened Seqs
  import opened Strings
  import opened TodoTypes

  // ---------------------------------------------------------------------
  // Text comparison and the store invariant

  /** Two texts clash when they are equal after `toLowerCase`. */
  predicate SameText(a: string, b: string) {
    Lower(a) == Lower(b)
  }

  /** Some task on `day` already has `text`, ignoring case. */
  predicate TextTaken(todos: seq<Todo>, text: string, day: Day) {
    exists i | 0 <= i < |todos| :: todos[i].day == day && SameText(todos[i].text, text)
  }

  /** Some task other than `id` on `day` already has `text`, ignoring case. */
  predicate TextTakenByOther(todos: seq<Todo>, text: string, day: Day, id: Id) {
    exists i | 0 <= i < |todos| ::
      todos[i].id != id && todos[i].day == day && SameText(todos[i].text, text)
  }

  /** No two tasks on the same day have equal lower-cased text. */
  predicate UniqueTextPerDay(todos: seq<Todo>) {
    forall i, j :: 0 <= i < j < |todos| && todos[i].day == todos[j].day ==>
      !SameText(todos[i].text, todos[j].text)
  }

  /** No two tasks share an id. */
  predicate DistinctIds(todos: seq<Todo>) {
    forall i, j :: 0 <= i < j < |todos| ==> todos[i].id != todos[j].id
  }

  /** Every id was handed out before `bound`, the next id the generator gives. */
  predicate IdsBelow(todos: seq<Todo>, bound: Id) {
    forall i :: 0 <= i < |todos| ==> todos[i].id < bound
  }

  /** Every stored text is non-empty and has no surrounding whitespace. */
  predicate TextsTrimmed(todos: seq<Todo>) {
    forall i :: 0 <= i < |todos| ==> IsTrimmed(todos[i].text)
  }

  predicate StoreInvariant(todos: seq<Todo>, bound: Id) {
    UniqueTextPerDay(todos) && DistinctIds(todos) && IdsBelow(todos, bound) && TextsTrimmed(todos)
  }

  // ---------------------------------------------------------------------
  // Lookup and validation

  /** Why a mutator refused to change the collection. */
  datatype Rejection = EmptyText | DuplicateInDay | UnknownId

  /** The `alert` a rejection shows; an unknown id is silent. */
  function AlertMessage(r: Rejection): (m: Option<string>)
    ensures m.None? <==> r == UnknownId
  {
    match r
    case EmptyText => Some("A tarefa não pode estar vazia")
    case DuplicateInDay => Some("Essa tarefa já existe nesse dia")
    case UnknownId => None
  }

  /** `todos.find(t => t.id === id)`: the first task with that id. */
  function FindById(todos: seq<Todo>, id: Id): (r: Option<Todo>)
    ensures r.None? <==> forall i :: 0 <= i < |todos| ==> todos[i].id != id
    ensures r.Some? ==> exists k :: 0 <= k < |todos| && todos[k] == r.value && r.value.id == id
  {
    if todos == [] then None
    else if todos[0].id == id then Some(todos[0])
    else
      var r := FindById(todos[1..], id);
      assert r.Some? ==> exists k :: 0 <= k < |todos[1..]| && todos[1..][k] == r.value;
      r
  }

  /** `find` returns the task at the first position holding the id. */
  lemma {:induction false} FindByIdFirst(todos: seq<Todo>, id: Id, k: int)
    requires 0 <= k < |todos| && todos[k].id == id
    requires forall j :: 0 <= j < k ==> todos[j].id != id
    ensures FindById(todos, id) == Some(todos[k])
  {
    if k > 0 {
      var tail := todos[1..];
      assert tail[k - 1] == todos[k];
      assert forall j :: 0 <= j < k - 1 ==> tail[j] == todos[j + 1];
      FindByIdFirst(tail, id, k - 1);
    }
  }

  /** With distinct ids, `find` returns the one task that carries the id. */
  lemma FindByIdUnique(todos: seq<Todo>, id: Id, k: int)
    requires DistinctIds(todos) && 0 <= k < |todos| && todos[k].id == id
    ensures FindById(todos, id) == Some(todos[k])
  {
    var j :| 0 <= j < |todos| && todos[j] == FindById(todos, id).value && todos[j].id == id;
    assert j == k;
  }

  /** The checks of `addTodo`, in the order the source makes them. */
  function AddCheck(todos: seq<Todo>, text: string, day: Day): (r: Option<Rejection>)
    ensures r == Some(EmptyText) <==> AllWhitespace(text)
    ensures r == Some(DuplicateInDay) <==> !AllWhitespace(text) && TextTaken(todos, Trim(text), day)
    ensures r != Some(UnknownId)
  {
    TrimEmptyIff(text);
    var t := Trim(text);
    if t == "" then Some(EmptyText)
    else if TextTaken(todos, t, day) then Some(DuplicateInDay)
    else None
  }

  /** The checks of `editTodo`: empty text, then unknown id, then a clash on the target's day. */
  function EditCheck(todos: seq<Todo>, id: Id, newText: string): (r: Option<Rejection>)
    ensures r == Some(EmptyText) <==> AllWhitespace(newText)
    ensures r == Some(UnknownId) <==>
      !AllWhitespace(newText) && forall i :: 0 <= i < |todos| ==> todos[i].id != id
    ensures r == Some(DuplicateInDay) <==>
      !AllWhitespace(newText) && FindById(todos, id).Some?
      && TextTakenByOther(todos, Trim(newText), FindById(todos, id).value.day, id)
  {
    TrimEmptyIff(newText);
    var t := Trim(newText);
    if t == "" then Some(EmptyText)
    else match FindById(todos, id)
      case None => Some(UnknownId)
      case Some(target) =>
        if TextTakenByOther(todos, t, target.day, id) then Some(DuplicateInDay) else None
  }

  /** The checks of `moveTodoToDay`: unknown id, then a clash with another task on `newDay`. */
  function MoveCheck(todos: seq<Todo>, id: Id, newDay: Day): (r: Option<Rejection>)
    ensures r == Some(UnknownId) <==> forall i :: 0 <= i < |todos| ==> todos[i].id != id
    ensures r == Some(DuplicateInDay) <==>
      FindById(todos, id).Some? && TextTakenByOther(todos, FindById(todos, id).value.text, newDay, id)
    ensures r != Some(EmptyText)
  {
    match FindById(todos, id)
    case None => Some(UnknownId)
    case Some(target) =>
      if TextTakenByOther(todos, target.text, newDay, id) then Some(DuplicateInDay) else None
  }

  // ---------------------------------------------------------------------
  // The new collections

  /** `[...todos, newTodo]` after a successful `addTodo`. */
  function Added(todos: seq<Todo>, text: string, day: Day, id: Id): (r: seq<Todo>)
    ensures |r| == |todos| + 1 && r[..|todos|] == todos
    ensures r[|todos|].id == id && r[|todos|].text == Trim(text)
    ensures !r[|todos|].completed && r[|todos|].day == day
  {
    todos + [Todo(id, Trim(text), false, day)]
  }

  /** The `map` of `editTodo`: only the text of the tasks with `id` changes. */
  function Edited(todos: seq<Todo>, id: Id, text: string): (r: seq<Todo>)
    ensures |r| == |todos|
    ensures forall i :: 0 <= i < |todos| ==>
      && r[i].id == todos[i].id && r[i].day == todos[i].day && r[i].completed == todos[i].completed
      && (todos[i].id == id ==> r[i].text == text)
      && (todos[i].id != id ==> r[i] == todos[i])
  {
    seq(|todos|, i requires 0 <= i < |todos| =>
      if todos[i].id == id then todos[i].(text := text) else todos[i])
  }

  /** The `map` of `toggleTodo`: only the completion of the tasks with `id` flips. */
  function Toggled(todos: seq<Todo>, id: Id): (r: seq<Todo>)
    ensures |r| == |todos|
    ensures forall i :: 0 <= i < |todos| ==>
      && r[i].id == todos[i].id && r[i].text == todos[i].text && r[i].day == todos[i].day
      && (r[i].completed <==> (todos[i].completed != (todos[i].id == id)))
  {
    seq(|todos|, i requires 0 <= i < |todos| =>
      if todos[i].id == id then todos[i].(completed := !todos[i].completed) else todos[i])
  }

  /** The `map` of `moveTodoToDay`: only the day of the tasks with `id` changes. */
  function Moved(todos: seq<Todo>, id: Id, newDay: Day): (r: seq<Todo>)
    ensures |r| == |todos|
    ensures forall i :: 0 <= i < |todos| ==>
      && r[i].id == todos[i].id && r[i].text == todos[i].text && r[i].completed == todos[i].completed
      && (todos[i].id == id ==> r[i].day == newDay)
      && (todos[i].id != id ==> r[i] == todos[i])
  {
    seq(|todos|, i requires 0 <= i < |todos| =>
      if todos[i].id == id then todos[i].(day := newDay) else todos[i])
  }

  function HasOtherId(id: Id): Todo -> bool {
    (t: Todo) => t.id != id
  }

  /** The `filter` of `deleteTodo`: the tasks without that id, in their order. */
  function Deleted(todos: seq<Todo>, id: Id): (r: seq<Todo>)
    ensures forall t :: t in r <==> t in todos && t.id != id
  {
    var p := HasOtherId(id);
    forall t | t in todos && t.id != id ensures t in Filter(todos, p) {
      FilterKeeps(todos, p, t);
    }
    Filter(todos, p)
  }

  /** A day that `replicateToAllDays` copies the task `src` into. */
  predicate NeedsCopy(todos: seq<Todo>, src: Todo, d: Day) {
    d != src.day && !TextTaken(todos, src.text, d)
  }

  function CopyTarget(todos: seq<Todo>, src: Todo): Day -> bool {
    (d: Day) => NeedsCopy(todos, src, d)
  }

  /** The days that receive a copy, in `DAYS_OF_WEEK` order: at most six, none twice. */
  function ReplicaDays(todos: seq<Todo>, src: Todo): (r: seq<Day>)
    ensures |r| <= 6 && Distinct(r)
    ensures forall d :: d in r <==> NeedsCopy(todos, src, d)
  {
    var days, p := DaysOfWeek(), CopyTarget(todos, src);
    FilterDrops(days, p, src.day);
    FilterKeepsDistinct(days, p);
    forall d | NeedsCopy(todos, src, d) ensures d in Filter(days, p) {
      FilterKeeps(days, p, d);
    }
    Filter(days, p)
  }

  /** One fresh task per day, numbered from `firstId`, each with `text`, not completed. */
  function Replicas(text: string, days: seq<Day>, firstId: Id): (r: seq<Todo>)
    ensures |r| == |days|
    ensures forall k :: 0 <= k < |days| ==> r[k] == Todo(firstId + k, text, false, days[k])
  {
    seq(|days|, k requires 0 <= k < |days| => Todo(firstId + k, text, false, days[k]))
  }

  lemma ReplicasSnoc(text: string, days: seq<Day>, d: Day, firstId: Id)
    ensures Replicas(text, days + [d], firstId)
            == Replicas(text, days, firstId) + [Todo(firstId + |days|, text, false, d)]
  {
  }

  /** The collection after `replicateToAllDays(id)`, fresh ids starting at `firstId`. */
  function Replicated(todos: seq<Todo>, id: Id, firstId: Id): (r: seq<Todo>)
    ensures |todos| <= |r| <= |todos| + 6 && r[..|todos|] == todos
    ensures FindById(todos, id).None? ==> r == todos
  {
    match FindById(todos, id)
    case None => todos
    case Some(src) => todos + Replicas(src.text, ReplicaDays(todos, src), firstId)
  }

  // ---------------------------------------------------------------------
  // Queries

  function OnDay(d: Day): Todo -> bool {
    (t: Todo) => t.day == d
  }

  /** `getTodosForDay`: the tasks of day `d`, in collection order. */
  function TodosForDay(todos: seq<Todo>, d: Day): (r: seq<Todo>)
    ensures forall t :: t in r <==> t in todos && t.day == d
  {
    forall t | t in todos && t.day == d ensures t in Filter(todos, OnDay(d)) {
      FilterKeeps(todos, OnDay(d), t);
    }
    Filter(todos, OnDay(d))
  }

  function IsPending(): Todo -> bool {
    (t: Todo) => !t.completed
  }

  function IsCompleted(): Todo -> bool {
    (t: Todo) => t.completed
  }

  /** Whether the list filter `f` lets task `t` through. */
  function Shows(f: FilterType): Todo -> bool {
    (t: Todo) => match f
      case All => true
      case Pending => !t.completed
      case Completed => t.completed
  }

  function Visible(d: Day, f: FilterType): Todo -> bool {
    (t: Todo) => t.day == d && Shows(f)(t)
  }

  /** Each branch of the `switch (filter)` filters by `Shows(filter)`. */
  lemma FilterByStatus(s: seq<Todo>, f: FilterType)
    ensures Filter(s, Shows(f)) == match f
      case Pending => Filter(s, IsPending())
      case Completed => Filter(s, IsCompleted())
      case All => s
  {
    match f
    case All => FilterAll(s, Shows(f));
    case Pending => FilterCongruent(s, IsPending(), Shows(f));
    case Completed => FilterCongruent(s, IsCompleted(), Shows(f));
  }

  /** `getFilteredTodos`: the tasks of day `d` that the filter `f` lets through. */
  function FilteredTodos(todos: seq<Todo>, d: Day, f: FilterType): (r: seq<Todo>)
    ensures forall t :: t in r <==> t in todos && t.day == d && Shows(f)(t)
  {
    var forDay := TodosForDay(todos, d);
    match f
    case Pending =>
      forall t | t in forDay && !t.completed ensures t in Filter(forDay, IsPending()) {
        FilterKeeps(forDay, IsPending(), t);
      }
      Filter(forDay, IsPending())
    case Completed =>
      forall t | t in forDay && t.completed ensures t in Filter(forDay, IsCompleted()) {
        FilterKeeps(forDay, IsCompleted(), t);
      }
      Filter(forDay, IsCompleted())
    case All => forDay
  }

  /** `deleteTodo` keeps the other tasks in their relative order. */
  lemma DeletedIsSelection(todos: seq<Todo>, id: Id)
    ensures Selection(Deleted(todos, id), todos, HasOtherId(id))
  {
    FilterIsSelection(todos, HasOtherId(id));
  }

  /** `getTodosForDay(d)` is the order-preserving subsequence of the tasks on `d`. */
  lemma TodosForDayIsSelection(todos: seq<Todo>, d: Day)
    ensures Selection(TodosForDay(todos, d), todos, OnDay(d))
  {
    FilterIsSelection(todos, OnDay(d));
  }

  /**
   * `getFilteredTodos(d)` is selected, in order, from `getTodosForDay(d)` by
   * the filter, and from the whole collection by day and filter together.
   */
  lemma FilteredTodosIsSelection(todos: seq<Todo>, d: Day, f: FilterType)
    ensures Selection(FilteredTodos(todos, d, f), TodosForDay(todos, d), Shows(f))
    ensures Selection(FilteredTodos(todos, d, f), todos, Visible(d, f))
  {
    var forDay := TodosForDay(todos, d);
    FilterByStatus(forDay, f);
    assert FilteredTodos(todos, d, f) == Filter(forDay, Shows(f));
    FilterIsSelection(forDay, Shows(f));
    FilterFilter(todos, OnDay(d), Shows(f), Visible(d, f));
    FilterIsSelection(todos, Visible(d, f));
  }

  /** The copies of `replicateToAllDays` follow `DAYS_OF_WEEK` order. */
  lemma ReplicaDaysInOrder(todos: seq<Todo>, src: Todo)
    ensures Selection(ReplicaDays(todos, src), DaysOfWeek(), CopyTarget(todos, src))
  {
    FilterIsSelection(DaysOfWeek(), CopyTarget(todos, src));
  }

  // ---------------------------------------------------------------------
  // Every mutator keeps the store invariant

  /** What a negative duplicate scan tells about one task on that day. */
  lemma NotTakenAt(todos: seq<Todo>, text: string, day: Day, j: int)
    requires !TextTaken(todos, text, day)
    requires 0 <= j < |todos| && todos[j].day == day
    ensures !SameText(todos[j].text, text)
  {
  }

  /** What a negative duplicate scan tells about one other task on that day. */
  lemma NoClashWith(todos: seq<Todo>, text: string, day: Day, id: Id, j: int)
    requires !TextTakenByOther(todos, text, day, id)
    requires 0 <= j < |todos| && todos[j].id != id && todos[j].day == day
    ensures !SameText(todos[j].text, text)
  {
  }

  /** An accepted `addTodo` with a fresh id keeps the invariant and advances the id bound. */
  lemma AddPreserves(todos: seq<Todo>, text: string, day: Day, bound: Id)
    requires StoreInvariant(todos, bound) && AddCheck(todos, text, day).None?
    ensures StoreInvariant(Added(todos, text, day, bound), bound + 1)
  {
    var t := Trim(text);
    var r := Added(todos, text, day, bound);
    assert !TextTaken(todos, t, day);
    forall i, j | 0 <= i < j < |r| && r[i].day == r[j].day
      ensures !SameText(r[i].text, r[j].text)
    {
      if j == |todos| {
        NotTakenAt(todos, t, day, i);
      } else {
        assert r[i] == todos[i] && r[j] == todos[j];
      }
    }
    assert IsTrimmed(t);
    assert TextsTrimmed(r);
  }

  /** A rewrite that keeps every id in place keeps the two id conjuncts of the invariant. */
  lemma SameIdsKeep(todos: seq<Todo>, r: seq<Todo>, bound: Id)
    requires DistinctIds(todos) && IdsBelow(todos, bound)
    requires |r| == |todos| && forall i :: 0 <= i < |todos| ==> r[i].id == todos[i].id
    ensures DistinctIds(r) && IdsBelow(r, bound)
  {
  }

  /** An accepted `editTodo` keeps the invariant. */
  lemma EditPreserves(todos: seq<Todo>, id: Id, newText: string, bound: Id)
    requires StoreInvariant(todos, bound) && EditCheck(todos, id, newText).None?
    ensures StoreInvariant(Edited(todos, id, Trim(newText)), bound)
  {
    var t := Trim(newText);
    var r := Edited(todos, id, t);
    var k :| 0 <= k < |todos| && todos[k].id == id;
    FindByIdUnique(todos, id, k);
    EditKeepsUniqueText(todos, id, t, k);
    SameIdsKeep(todos, r, bound);
    EditKeepsTrimmed(todos, id, newText);
  }

  lemma EditKeepsTrimmed(todos: seq<Todo>, id: Id, newText: string)
    requires TextsTrimmed(todos) && !AllWhitespace(newText)
    ensures TextsTrimmed(Edited(todos, id, Trim(newText)))
  {
    TrimEmptyIff(newText);
  }

  lemma EditKeepsUniqueText(todos: seq<Todo>, id: Id, t: string, k: int)
    requires UniqueTextPerDay(todos) && DistinctIds(todos)
    requires 0 <= k < |todos| && todos[k].id == id
    requires !TextTakenByOther(todos, t, todos[k].day, id)
    ensures UniqueTextPerDay(Edited(todos, id, t))
  {
    var r := Edited(todos, id, t);
    forall i, j | 0 <= i < j < |r| && r[i].day == r[j].day
      ensures !SameText(r[i].text, r[j].text)
    {
      if i == k {
        NoClashWith(todos, t, todos[k].day, id, j);
      } else if j == k {
        NoClashWith(todos, t, todos[k].day, id, i);
      } else {
        assert r[i] == todos[i] && r[j] == todos[j];
      }
    }
  }

  /** `toggleTodo` keeps the invariant: it touches neither ids, texts nor days. */
  lemma TogglePreserves(todos: seq<Todo>, id: Id, bound: Id)
    requires StoreInvariant(todos, bound)
    ensures StoreInvariant(Toggled(todos, id), bound)
  {
  }

  /** An accepted `moveTodoToDay` keeps the invariant. */
  lemma MovePreserves(todos: seq<Todo>, id: Id, newDay: Day, bound: Id)
    requires StoreInvariant(todos, bound) && MoveCheck(todos, id, newDay).None?
    ensures StoreInvariant(Moved(todos, id, newDay), bound)
  {
    var r := Moved(todos, id, newDay);
    var k :| 0 <= k < |todos| && todos[k].id == id;
    FindByIdUnique(todos, id, k);
    MoveKeepsUniqueText(todos, id, newDay, k);
    SameIdsKeep(todos, r, bound);
  }

  lemma MoveKeepsUniqueText(todos: seq<Todo>, id: Id, newDay: Day, k: int)
    requires UniqueTextPerDay(todos) && DistinctIds(todos)
    requires 0 <= k < |todos| && todos[k].id == id
    requires !TextTakenByOther(todos, todos[k].text, newDay, id)
    ensures UniqueTextPerDay(Moved(todos, id, newDay))
  {
    var r := Moved(todos, id, newDay);
    var t := todos[k].text;
    forall i, j | 0 <= i < j < |r| && r[i].day == r[j].day
      ensures !SameText(r[i].text, r[j].text)
    {
      if i == k {
        NoClashWith(todos, t, newDay, id, j);
      } else if j == k {
        NoClashWith(todos, t, newDay, id, i);
      } else {
        assert r[i] == todos[i] && r[j] == todos[j];
      }
    }
  }

  /** Any order-preserving selection keeps the invariant; in particular `deleteTodo` does. */
  lemma FilterPreserves(todos: seq<Todo>, p: Todo -> bool, bound: Id)
    requires StoreInvariant(todos, bound)
    ensures StoreInvariant(Filter(todos, p), bound)
  {
    FilterIndicesCorrect(todos, p);
    var idx, r := FilterIndices(todos, p), Filter(todos, p);
    forall i, j | 0 <= i < j < |r|
      ensures r[i].day == r[j].day ==> !SameText(r[i].text, r[j].text)
      ensures r[i].id != r[j].id
    {
      assert r[i] == todos[idx[i]] && r[j] == todos[idx[j]] && idx[i] < idx[j];
    }
    forall i | 0 <= i < |r|
      ensures r[i].id < bound && IsTrimmed(r[i].text)
    {
      assert r[i] == todos[idx[i]];
    }
  }

  lemma DeletePreserves(todos: seq<Todo>, id: Id, bound: Id)
    requires StoreInvariant(todos, bound)
    ensures StoreInvariant(Deleted(todos, id), bound)
  {
    FilterPreserves(todos, HasOtherId(id), bound);
  }

  /** `replicateToAllDays` keeps the invariant and advances the id bound past the copies. */
  lemma ReplicatePreserves(todos: seq<Todo>, id: Id, bound: Id)
    requires StoreInvariant(todos, bound)
    ensures StoreInvariant(Replicated(todos, id, bound), bound + |Replicated(todos, id, bound)| - |todos|)
  {
    match FindById(todos, id)
    case None =>
    case Some(src) =>
      var k :| 0 <= k < |todos| && todos[k] == src;
      assert IsTrimmed(todos[k].text);
      ReplicateFromPreserves(todos, src, bound);
  }

  /** Appending the copies of a trimmed source keeps the invariant with the bound moved past them. */
  lemma ReplicateFromPreserves(todos: seq<Todo>, src: Todo, bound: Id)
    requires StoreInvariant(todos, bound) && IsTrimmed(src.text)
    ensures var copies := Replicas(src.text, ReplicaDays(todos, src), bound);
      StoreInvariant(todos + copies, bound + |copies|)
  {
    ReplicasKeepUniqueText(todos, src, bound);
    AppendPreserves(todos, Replicas(src.text, ReplicaDays(todos, src), bound), bound);
  }

  /** Appending pending copies numbered upwards from `bound` keeps the invariant if their texts fit. */
  lemma AppendPreserves(todos: seq<Todo>, copies: seq<Todo>, bound: Id)
    requires StoreInvariant(todos, bound) && UniqueTextPerDay(todos + copies)
    requires forall k :: 0 <= k < |copies| ==> copies[k].id == bound + k && IsTrimmed(copies[k].text)
    ensures StoreInvariant(todos + copies, bound + |copies|)
  {
    FreshIdsKeep(todos, copies, bound);
    var r := todos + copies;
    forall i | 0 <= i < |r| ensures IsTrimmed(r[i].text) {
      if i >= |todos| {
        assert r[i] == copies[i - |todos|];
      } else {
        assert r[i] == todos[i];
      }
    }
  }

  /** No copy clashes with a task already on its day, and no two copies share a day. */
  lemma ReplicasKeepUniqueText(todos: seq<Todo>, src: Todo, bound: Id)
    requires UniqueTextPerDay(todos)
    ensures UniqueTextPerDay(todos + Replicas(src.text, ReplicaDays(todos, src), bound))
  {
    var days := ReplicaDays(todos, src);
    var copies := Replicas(src.text, days, bound);
    var r := todos + copies;
    forall i, j | 0 <= i < j < |r| && r[i].day == r[j].day
      ensures !SameText(r[i].text, r[j].text)
    {
      if j >= |todos| && i < |todos| {
        var d := days[j - |todos|];
        assert r[j] == copies[j - |todos|] && r[j].day == d && d in days;
        assert r[i] == todos[i];
        NotTakenAt(todos, src.text, d, i);
      } else if j < |todos| {
        assert r[i] == todos[i] && r[j] == todos[j];
      }
    }
  }

  /** Appending tasks numbered upwards from `bound` keeps the ids distinct and moves the bound past them. */
  lemma FreshIdsKeep(todos: seq<Todo>, copies: seq<Todo>, bound: Id)
    requires DistinctIds(todos) && IdsBelow(todos, bound)
    requires forall k :: 0 <= k < |copies| ==> copies[k].id == bound + k
    ensures DistinctIds(todos + copies) && IdsBelow(todos + copies, bound + |copies|)
  {
    var r := todos + copies;
    forall i, j | 0 <= i < j < |r| ensures r[i].id != r[j].id {
      if j >= |todos| {
        assert r[j] == copies[j - |todos|];
        if i >= |todos| {
          assert r[i] == copies[i - |todos|];
        } else {
          assert r[i] == todos[i];
        }
      } else {
        assert r[i] == todos[i] && r[j] == todos[j];
      }
    }
    forall i | 0 <= i < |r| ensures r[i].id < bound + |copies| {
      if i >= |todos| {
        assert r[i] == copies[i - |todos|];
      } else {
        assert r[i] == todos[i];
      }
    }
  }

  // ---------------------------------------------------------------------
  // Properties of the individual operations

  /** `addTodo("")` and `addTodo("   ")` are refused as empty. */
  lemma AddBlankRefused(todos: seq<Todo>, day: Day)
    ensures AddCheck(todos, "", day) == Some(EmptyText)
    ensures AddCheck(todos, "   ", day) == Some(EmptyText)
  {
    assert AllWhitespace("   ");
  }

  /**
   * Once a text is added to a day, adding it again in any letter case (and
   * with any surrounding whitespace) is refused as a duplicate.
   */
  lemma AddTwiceRefused(todos: seq<Todo>, text: string, again: string, day: Day, id: Id)
    requires AddCheck(todos, text, day).None?
    requires !AllWhitespace(again) && SameText(Trim(again), Trim(text))
    ensures AddCheck(Added(todos, text, day, id), again, day) == Some(DuplicateInDay)
  {
    var r := Added(todos, text, day, id);
    assert r[|todos|].day == day && SameText(r[|todos|].text, Trim(again));
  }

  /** Adding "Buy milk" and then "buy milk" to one day: the second is refused. */
  lemma BuyMilkScenario(day: Day)
    ensures AddCheck([], "Buy milk", day).None?
    ensures AddCheck(Added([], "Buy milk", day, 0), "buy milk", day) == Some(DuplicateInDay)
  {
    var t1, t2 := "Buy milk", "buy milk";
    BuyMilkTexts();
    assert !AllWhitespace(t1) && !AllWhitespace(t2);
    AddTwiceRefused([], t1, t2, day, 0);
  }

  /** Both spellings are already trimmed, and they clash once lower-cased. */
  lemma BuyMilkTexts()
    ensures Trim("Buy milk") == "Buy milk" && Trim("buy milk") == "buy milk"
    ensures SameText("Buy milk", "buy milk")
  {
    var t1, t2 := "Buy milk", "buy milk";
    assert IsTrimmed(t1) && IsTrimmed(t2);
    TrimmedFixed(t1);
    TrimmedFixed(t2);
    assert LowerChar('B') == 'b';
    forall i | 0 <= i < 8 ensures Lower(t1)[i] == Lower(t2)[i] {
      if i > 0 { assert t1[i] == t2[i]; }
    }
  }

  /** Toggling twice restores the collection. */
  lemma ToggleTwice(todos: seq<Todo>, id: Id)
    ensures Toggled(Toggled(todos, id), id) == todos
  {
    var r := Toggled(Toggled(todos, id), id);
    forall i | 0 <= i < |todos| ensures r[i] == todos[i] {
    }
  }

  /** Toggling, deleting, editing or moving an unknown id changes nothing. */
  lemma UnknownIdNoChange(todos: seq<Todo>, id: Id, text: string, d: Day)
    requires forall i :: 0 <= i < |todos| ==> todos[i].id != id
    ensures Toggled(todos, id) == todos
    ensures Deleted(todos, id) == todos
    ensures Edited(todos, id, text) == todos
    ensures Moved(todos, id, d) == todos
    ensures Replicated(todos, id, 0) == todos
  {
    FilterAll(todos, HasOtherId(id));
  }

  /** Deleting a present id removes exactly its one task. */
  lemma DeleteRemovesOne(todos: seq<Todo>, id: Id, k: int)
    requires DistinctIds(todos) && 0 <= k < |todos| && todos[k].id == id
    ensures |Deleted(todos, id)| == |todos| - 1
    ensures todos[k] !in Deleted(todos, id)
  {
    assert Distinct(todos);
    FilterAllBut(todos, HasOtherId(id), todos[k]);
  }

  /** Editing keeps each task's text except the edited one's. */
  lemma EditTextOnly(todos: seq<Todo>, id: Id, newText: string, k: int)
    requires DistinctIds(todos) && 0 <= k < |todos| && todos[k].id == id
    ensures Edited(todos, id, newText) == todos[k := todos[k].(text := newText)]
  {
  }

  /** Moving a task to the day it is already on is accepted and changes nothing. */
  lemma MoveToSameDay(todos: seq<Todo>, id: Id, k: int)
    requires UniqueTextPerDay(todos) && DistinctIds(todos)
    requires 0 <= k < |todos| && todos[k].id == id
    ensures MoveCheck(todos, id, todos[k].day).None?
    ensures Moved(todos, id, todos[k].day) == todos
  {
    FindByIdUnique(todos, id, k);
    forall j | 0 <= j < |todos| && todos[j].id != id && todos[j].day == todos[k].day
      ensures !SameText(todos[j].text, todos[k].text)
    {
      if j > k {
        assert !SameText(todos[k].text, todos[j].text);
      }
    }
    var r := Moved(todos, id, todos[k].day);
    forall i | 0 <= i < |todos| ensures r[i] == todos[i] {
    }
  }

  /**
   * `replicateToAllDays` on a task whose text no other day has yet creates
   * exactly six copies.
   */
  lemma ReplicateSix(todos: seq<Todo>, k: int, bound: Id)
    requires DistinctIds(todos) && 0 <= k < |todos|
    requires forall d :: d != todos[k].day ==> !TextTaken(todos, todos[k].text, d)
    ensures |Replicated(todos, todos[k].id, bound)| == |todos| + 6
  {
    var src := todos[k];
    FindByIdUnique(todos, src.id, k);
    var days := DaysOfWeek();
    assert Distinct(days);
    FilterAllBut(days, CopyTarget(todos, src), src.day);
  }

  /** When every other day already has the text, `replicateToAllDays` adds nothing. */
  lemma ReplicateNone(todos: seq<Todo>, k: int, bound: Id)
    requires DistinctIds(todos) && 0 <= k < |todos|
    requires forall d :: d != todos[k].day ==> TextTaken(todos, todos[k].text, d)
    ensures Replicated(todos, todos[k].id, bound) == todos
  {
    var src := todos[k];
    FindByIdUnique(todos, src.id, k);
    FilterNone(DaysOfWeek(), CopyTarget(todos, src));
  }

  /** A successful `addTodo` adds exactly one task to its day's list and none to any other. */
  lemma AddGrowsOneDay(todos: seq<Todo>, text: string, day: Day, id: Id, d: Day)
    ensures |TodosForDay(Added(todos, text, day, id), d)| ==
            |TodosForDay(todos, d)| + (if d == day then 1 else 0)
  {
    FilterAppend(todos, [Todo(id, Trim(text), false, day)], OnDay(d));
    assert [Todo(id, Trim(text), false, day)][..0] == [];
  }

  /** The "Gym" example: one pending Monday task seen through the three filters. */
  lemma GymScenario()
    ensures var gym := Todo(0, "Gym", false, Segunda);
      && FilteredTodos([gym], Segunda, Completed) == []
      && FilteredTodos([gym], Segunda, Pending) == [gym]
      && FilteredTodos([gym], Segunda, All) == [gym]
  {
    var gym := Todo(0, "Gym", false, Segunda);
    var s := [gym];
    assert s[..0] == [];
    assert TodosForDay(s, Segunda) == s;
    assert Filter(s, IsCompleted()) == [];
    assert Filter(s, IsPending()) == s;
  }

  /**
   * The `DAYS_OF_WEEK.forEach` loop of `replicateToAllDays`: skips the
   * source's own day, and for every other day whose tasks lack the text
   * pushes a fresh, pending copy, numbering the ids from `firstId`. The
   * caller passes `DaysOfWeek()` as `days`.
   */
  method CollectReplicas(todos: seq<Todo>, src: Todo, days: seq<Day>, firstId: Id)
    returns (newTodos: seq<Todo>)
    ensures newTodos == Replicas(src.text, Filter(days, CopyTarget(todos, src)), firstId)
  {
    ghost var p := CopyTarget(todos, src);
    newTodos := [];
    var freshId := firstId;
    for i := 0 to |days|
      invariant newTodos == Replicas(src.text, Filter(days[..i], p), firstId)
      invariant freshId == firstId + |newTodos|
    {
      var day := days[i];
      FilterPrefixStep(days, p, i);
      ghost var chosen := Filter(days[..i], p);
      if day == src.day {
        assert Filter(days[..i + 1], p) == chosen;
        continue;
      }
      var taken := TextTaken(todos, src.text, day);
      if !taken {
        assert Filter(days[..i + 1], p) == chosen + [day];
        ReplicasSnoc(src.text, chosen, day, firstId);
        newTodos := newTodos + [Todo(freshId, src.text, false, day)];
        freshId := freshId + 1;
      } else {
        assert Filter(days[..i + 1], p) == chosen;
      }
    }
    assert days[..|days|] == days;
  }

  // ---------------------------------------------------------------------
  // The hook's state

  /**
   * The state of `useTodoList`. `nextId` stands in for `crypto.randomUUID`:
   * each new task takes the current value and the counter moves past it.
   */
  class TodoList {
    var todos: seq<Todo>
    var currentDay: Day
    var filter: FilterType
    var nextId: Id

    ghost predicate Valid()
      reads this
    {
      StoreInvariant(todos, nextId)
    }

    /** The initial state: no tasks, Monday selected, filter "all". */
    constructor ()
      ensures Valid()
      ensures todos == [] && currentDay == Segunda && filter == All
    {
      todos := [];
      currentDay := Segunda;
      filter := All;
      nextId := 0;
    }

    /** `setCurrentDay`. */
    method SetCurrentDay(d: Day)
      requires Valid()
      modifies this`currentDay
      ensures Valid() && currentDay == d
    {
      currentDay := d;
    }

    /** `setFilter`. */
    method SetFilter(f: FilterType)
      requires Valid()
      modifies this`filter
      ensures Valid() && filter == f
    {
      filter := f;
    }

    /** `addTodo`: appends one fresh, trimmed, pending task unless the text is blank or taken. */
    method AddTodo(text: string, day: Day) returns (ok: bool)
      requires Valid()
      modifies this`todos, this`nextId
      ensures Valid()
      ensures ok <==> AddCheck(old(todos), text, day).None?
      ensures ok ==> todos == Added(old(todos), text, day, old(nextId)) && nextId == old(nextId) + 1
      ensures !ok ==> todos == old(todos) && nextId == old(nextId)
    {
      var trimmed := Trim(text);
      if trimmed == "" {
        return false;
      }
      if TextTaken(todos, trimmed, day) {
        return false;
      }
      AddPreserves(todos, text, day, nextId);
      todos := todos + [Todo(nextId, trimmed, false, day)];
      nextId := nextId + 1;
      return true;
    }

    /** `editTodo`: replaces the text of the task `id` unless blank, unknown or taken on its day. */
    method EditTodo(id: Id, newText: string) returns (ok: bool)
      requires Valid()
      modifies this`todos
      ensures Valid()
      ensures ok <==> EditCheck(old(todos), id, newText).None?
      ensures todos == if ok then Edited(old(todos), id, Trim(newText)) else old(todos)
    {
      var trimmed := Trim(newText);
      if trimmed == "" {
        return false;
      }
      var found := FindById(todos, id);
      if found.None? {
        return false;
      }
      if TextTakenByOther(todos, trimmed, found.value.day, id) {
        return false;
      }
      EditPreserves(todos, id, newText, nextId);
      todos := Edited(todos, id, trimmed);
      return true;
    }

    /** `toggleTodo`. */
    method ToggleTodo(id: Id)
      requires Valid()
      modifies this`todos
      ensures Valid()
      ensures todos == Toggled(old(todos), id)
    {
      TogglePreserves(todos, id, nextId);
      todos := Toggled(todos, id);
    }

    /** `deleteTodo`. */
    method DeleteTodo(id: Id)
      requires Valid()
      modifies this`todos
      ensures Valid()
      ensures todos == Deleted(old(todos), id)
    {
      DeletePreserves(todos, id, nextId);
      todos := Deleted(todos, id);
    }

    /** `moveTodoToDay`: reassigns the day unless the id is unknown or the text is taken there. */
    method MoveTodoToDay(id: Id, newDay: Day)
      requires Valid()
      modifies this`todos
      ensures Valid()
      ensures todos == if MoveCheck(old(todos), id, newDay).None? then Moved(old(todos), id, newDay)
                       else old(todos)
    {
      var found := FindById(todos, id);
      if found.None? {
        return;
      }
      if TextTakenByOther(todos, found.value.text, newDay, id) {
        return;
      }
      MovePreserves(todos, id, newDay, nextId);
      todos := Moved(todos, id, newDay);
    }

    /**
     * `replicateToAllDays`: collects a fresh copy of the task for each other
     * day that lacks its text and appends them, if there are any.
     */
    method ReplicateToAllDays(id: Id)
      requires Valid()
      modifies this`todos, this`nextId
      ensures Valid()
      ensures todos == Replicated(old(todos), id, old(nextId))
      ensures nextId == old(nextId) + (|todos| - |old(todos)|)
    {
      var found := FindById(todos, id);
      if found.None? {
        return;
      }
      var newTodos := CollectReplicas(todos, found.value, DaysOfWeek(), nextId);
      assert newTodos == Replicas(found.value.text, ReplicaDays(todos, found.value), nextId);
      ReplicatePreserves(todos, id, nextId);
      if |newTodos| > 0 {
        todos := todos + newTodos;
        nextId := nextId + |newTodos|;
      }
    }

    /** `getTodosForDay`, over the current collection. */
    function GetTodosForDay(d: Day): (r: seq<Todo>)
      reads this
      ensures forall t :: t in r <==> t in todos && t.day == d
    {
      TodosForDay(todos, d)
    }

    /** `getFilteredTodos`, with the current filter. */
    function GetFilteredTodos(d: Day): (r: seq<Todo>)
      reads this
      ensures forall t :: t in r <==> t in todos && t.day == d && Shows(filter)(t)
    {
      FilteredTodos(todos, d, filter)
    }
  }
}
