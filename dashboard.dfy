/** The page's global state (`progressData`, `progressHistory`, `todos`,
    `currentFilter`) and the handlers that change it, with the DOM, storage
    writes and chart updates stripped away. */
module Dashboard {
  import opened Wrappers
  import opened Progress
  import opened History
  import opened Tasks

  /** Progress with every catalog section at 0 and nothing else. */
  ghost predicate AllSectionsZero(progress: map<string, int>) {
    progress.Keys == SectionIds() && forall id :: id in progress ==> progress[id] == 0
  }

  /** The history `loadDataFromLocalStorage` ends with: the saved one, or a
      single entry for today with the overall score of the loaded progress. */
  function LoadedHistory(savedHistory: Option<seq<Entry>>, progress: map<string, int>, today: int): seq<Entry> {
    if savedHistory.Some? then savedHistory.value else [Entry(today, OverallProgress(progress))]
  }

  /** The task list `loadDataFromLocalStorage` ends with. */
  function LoadedTasks(savedTodos: Option<seq<Task>>): seq<Task> {
    if savedTodos.Some? then savedTodos.value else []
  }

  /** `loadDataFromLocalStorage`: a saved value is taken as given; missing
      progress becomes every catalog section at 0, missing tasks an empty list,
      and a missing history exactly one entry for today with the overall score
      of the loaded progress. */
  method LoadDataFromLocalStorage(savedProgress: Option<map<string, int>>, savedTodos: Option<seq<Task>>,
                                  savedHistory: Option<seq<Entry>>, today: int)
    returns (progress: map<string, int>, history: seq<Entry>, tasks: seq<Task>)
    ensures savedProgress.Some? ==> progress == savedProgress.value
    ensures savedProgress.None? ==> AllSectionsZero(progress)
    ensures history == LoadedHistory(savedHistory, progress, today)
    ensures tasks == LoadedTasks(savedTodos)
  {
    if savedProgress.Some? {
      progress := savedProgress.value;
    } else {
      progress := DefaultProgress(SECTIONS);
    }
    tasks := if savedTodos.Some? then savedTodos.value else [];
    if savedHistory.Some? {
      history := savedHistory.value;
    } else {
      var overallProgress := CalculateOverallProgress(progress);
      history := [Entry(today, overallProgress)];
    }
  }

  class AppState {
    var progressData: map<string, int>
    var progressHistory: seq<Entry>
    var todos: seq<Task>
    var currentFilter: string

    /** `initApp` as far as it touches the state: `loadDataFromLocalStorage`,
        then the first `renderTodos`, which with the filter "all" sorts the
        loaded tasks. */
    constructor Init(savedProgress: Option<map<string, int>>, savedTodos: Option<seq<Task>>,
                     savedHistory: Option<seq<Entry>>, today: int)
      ensures savedProgress.Some? ==> progressData == savedProgress.value
      ensures savedProgress.None? ==> AllSectionsZero(progressData)
      ensures progressHistory == LoadedHistory(savedHistory, progressData, today)
      ensures todos == DisplaySort(LoadedTasks(savedTodos))
      ensures currentFilter == "all"
    {
      var progress, history, loadedTodos := LoadDataFromLocalStorage(savedProgress, savedTodos, savedHistory, today);
      progressData := progress;
      progressHistory := history;
      currentFilter := "all";
      // The first `renderTodos` runs with the filter "all", where `filteredTodos`
      // is the stored array itself: the loaded tasks end up in display order.
      var sorted := SortForDisplay(loadedTodos);
      todos := sorted;
    }

    /** The history upsert of `saveProgressToLocalStorage`: today's entry gets the
        current overall score, or a new entry is pushed. */
    method SaveProgress(today: int)
      modifies this`progressHistory
      ensures progressHistory == Upsert(old(progressHistory), today, OverallProgress(progressData))
      ensures UniqueDates(old(progressHistory)) ==> UniqueDates(progressHistory)
    {
      var overallProgress := CalculateOverallProgress(progressData);
      var existingEntryIndex := FindDate(progressHistory, today);
      if existingEntryIndex != -1 {
        progressHistory := progressHistory[existingEntryIndex := progressHistory[existingEntryIndex].(progress := overallProgress)];
      } else {
        progressHistory := progressHistory + [Entry(today, overallProgress)];
      }
      if UniqueDates(old(progressHistory)) {
        UpsertKeepsDatesUnique(old(progressHistory), today, overallProgress);
      }
    }

    /** The change handler of a section's input: store the clamped value, then save. */
    method OnProgressInput(sectionId: string, input: ParsedInt, today: int)
      modifies this`progressData, this`progressHistory
      ensures progressData == old(progressData)[sectionId := Clamp(input)]
      ensures progressHistory == Upsert(old(progressHistory), today, OverallProgress(progressData))
      ensures InRange(old(progressData)) ==> InRange(progressData)
      ensures UniqueDates(old(progressHistory)) ==> UniqueDates(progressHistory)
    {
      progressData := progressData[sectionId := Clamp(input)];
      SaveProgress(today);
    }

    /** `renderTodos` as far as it touches the state: select by the current
        filter and sort. For "active" and "completed" the sort works on a fresh
        array; for any other filter `filteredTodos` is `todos` itself, so the
        stored list is reordered. */
    method RenderTodos() returns (shown: seq<Task>)
      modifies this`todos
      ensures shown == DisplaySort(ViewSelection(old(todos), currentFilter))
      ensures todos == if AliasesStore(currentFilter) then shown else old(todos)
      ensures multiset(todos) == multiset(old(todos))
    {
      var filteredTodos := todos;
      if currentFilter == "active" {
        filteredTodos := Filter(todos, (t: Task) => !t.completed);
      } else if currentFilter == "completed" {
        filteredTodos := Filter(todos, (t: Task) => t.completed);
      }
      shown := SortForDisplay(filteredTodos);
      if AliasesStore(currentFilter) {
        todos := shown;
      }
    }

    /** A click on a filter button: remember the filter, then render. */
    method SelectFilter(filter: string) returns (shown: seq<Task>)
      modifies this`currentFilter, this`todos
      ensures currentFilter == filter
      ensures shown == DisplaySort(ViewSelection(old(todos), filter))
      ensures todos == if AliasesStore(filter) then shown else old(todos)
    {
      currentFilter := filter;
      shown := RenderTodos();
    }

    /** `addTodo`: reject an empty trimmed text or an unselected section;
        otherwise push a new active task and render (which, with the filter
        "all", reorders the stored list). Each section's total grows by one
        exactly when the task went into it; no completed count changes. */
    method AddTodo(rawText: string, section: string, id: int, createdAt: int) returns (added: bool)
      modifies this`todos
      ensures added <==> Trim(rawText) != [] && section != []
      ensures !added ==> todos == old(todos)
      ensures added ==>
                var pushed := old(todos) + [Task(id, Trim(rawText), section, false, createdAt)];
                todos == if AliasesStore(currentFilter) then DisplaySort(pushed) else pushed
      ensures forall name :: CountTotal(todos, name) == CountTotal(old(todos), name) + (if added && name == section then 1 else 0)
      ensures forall name :: CountCompleted(todos, name) == CountCompleted(old(todos), name)
    {
      var text := Trim(rawText);
      added := text != [] && section != [];
      if added {
        var newTodo := Task(id, text, section, false, createdAt);
        todos := todos + [newTodo];
        ghost var pushed := todos;
        var shown := RenderTodos();
        forall name
          ensures CountTotal(todos, name) == CountTotal(old(todos), name) + (if name == section then 1 else 0)
          ensures CountCompleted(todos, name) == CountCompleted(old(todos), name)
        {
          CountsAfterAppend(old(todos), newTodo, name);
          CountsIgnoreOrder(todos, pushed, name);
        }
      }
    }

    /** The checkbox handler: the task at position k of the stored list (the
        object the handler captured) takes the checkbox state. */
    method SetCompleted(k: nat, checked: bool)
      requires k < |todos|
      modifies this`todos
      ensures todos == old(todos)[k := old(todos)[k].(completed := checked)]
    {
      todos := todos[k := todos[k].(completed := checked)];
    }

    /** The delete handler: drop every task with that id, then render. */
    method DeleteTodo(id: int)
      modifies this`todos
      ensures todos == if AliasesStore(currentFilter) then DisplaySort(WithoutId(old(todos), id)) else WithoutId(old(todos), id)
      ensures forall t :: multiset(todos)[t] == if t.id == id then 0 else multiset(old(todos))[t]
    {
      todos := WithoutId(todos, id);
      var shown := RenderTodos();
    }
  }
}
