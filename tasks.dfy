/** The task list: validation of new tasks, the filter-based counts, and the
    display order of `renderTodos`. */
module Tasks {

  /** A stored task. `id` stands for the `Date.now()` identifier and `createdAt`
      for the creation instant in milliseconds. */
  datatype Task = Task(id: int, text: string, section: string, completed: bool, createdAt: int)

  /** The code points `String.prototype.trim` removes: ECMAScript WhiteSpace
      (tab, vertical tab, form feed, space, no-break space, the byte order mark
      and the other space separators) and LineTerminator (LF, CR, U+2028, U+2029). */
  predicate IsTrimmable(c: char) {
    var n := c as int;
    n == 0x09 || n == 0x0A || n == 0x0B || n == 0x0C || n == 0x0D || n == 0x20 ||
    n == 0xA0 || n == 0x1680 || (0x2000 <= n <= 0x200A) || n == 0x2028 || n == 0x2029 ||
    n == 0x202F || n == 0x205F || n == 0x3000 || n == 0xFEFF
  }

  /** The number of trimmable characters at the start of s. */
  function LeadingTrimmable(s: string): (n: nat)
    ensures n <= |s|
    ensures forall k :: 0 <= k < n ==> IsTrimmable(s[k])
    ensures n < |s| ==> !IsTrimmable(s[n])
  {
    if s != [] && IsTrimmable(s[0]) then 1 + LeadingTrimmable(s[1..]) else 0
  }

  /** The number of trimmable characters at the end of s. */
  function TrailingTrimmable(s: string): (n: nat)
    ensures n <= |s|
    ensures forall k :: |s| - n <= k < |s| ==> IsTrimmable(s[k])
    ensures n < |s| ==> !IsTrimmable(s[|s| - n - 1])
  {
    if s != [] && IsTrimmable(s[|s| - 1]) then 1 + TrailingTrimmable(s[..|s| - 1]) else 0
  }

  /** `s.trim()`: s without its leading and trailing trimmable characters. */
  function Trim(s: string): (r: string)
    ensures |r| <= |s|
    ensures r == [] <==> forall k :: 0 <= k < |s| ==> IsTrimmable(s[k])
    ensures r != [] ==> !IsTrimmable(r[0]) && !IsTrimmable(r[|r| - 1])
    ensures LeadingTrimmable(s) + |r| <= |s| && r == s[LeadingTrimmable(s)..LeadingTrimmable(s) + |r|]
    ensures forall k :: LeadingTrimmable(s) + |r| <= k < |s| ==> IsTrimmable(s[k])
  {
    var a := LeadingTrimmable(s);
    if a == |s| then []
    else
      var b := TrailingTrimmable(s);
      s[a..|s| - b]
  }

  /** `s.filter(keep)`: the elements of s that satisfy keep, in their order. */
  function Filter<T(!new)>(s: seq<T>, keep: T -> bool): (r: seq<T>)
    ensures |r| <= |s|
  {
    if s == [] then [] else (if keep(s[0]) then [s[0]] else []) + Filter(s[1..], keep)
  }

  /** The filter keeps every element that satisfies keep, as often as it occurs,
      and drops every other. */
  lemma {:induction false} FilterContents<T(!new)>(s: seq<T>, keep: T -> bool)
    ensures forall x :: multiset(Filter(s, keep))[x] == if keep(x) then multiset(s)[x] else 0
  {
    if s != [] {
      FilterContents(s[1..], keep);
      assert s == [s[0]] + s[1..];
    }
  }

  /** The filter keeps the elements in their original order. */
  lemma {:induction false} FilterIsSubsequence<T(!new)>(s: seq<T>, keep: T -> bool)
    ensures IsSubsequence(Filter(s, keep), s)
  {
    if s != [] {
      var rest := Filter(s[1..], keep);
      FilterIsSubsequence(s[1..], keep);
      if !keep(s[0]) && rest != [] {
        FilterContents(s[1..], keep);
        assert multiset(rest)[rest[0]] > 0;
        assert keep(rest[0]) && rest[0] != s[0];
        assert Filter(s, keep) == rest;
      }
    }
  }

  /** a occurs in b in the same order, possibly with other elements between. */
  predicate IsSubsequence<T(==)>(a: seq<T>, b: seq<T>)
    decreases |b|
  {
    a == [] || (b != [] && if a[0] == b[0] then IsSubsequence(a[1..], b[1..]) else IsSubsequence(a, b[1..]))
  }

  lemma {:induction false} FilterAppend<T(!new)>(s: seq<T>, x: T, keep: T -> bool)
    ensures Filter(s + [x], keep) == Filter(s, keep) + (if keep(x) then [x] else [])
  {
    if s == [] {
      assert s + [x] == [x];
      assert [x][1..] == [];
    } else {
      var head := if keep(s[0]) then [s[0]] else [];
      var last := if keep(x) then [x] else [];
      assert (s + [x])[0] == s[0];
      assert (s + [x])[1..] == s[1..] + [x];
      FilterAppend(s[1..], x, keep);
      calc {
        Filter(s + [x], keep);
        head + Filter(s[1..] + [x], keep);
        head + (Filter(s[1..], keep) + last);
        (head + Filter(s[1..], keep)) + last;
        Filter(s, keep) + last;
      }
    }
  }

  /** The list after deleting `id`: `todos.filter(t => t.id !== id)`. */
  function WithoutId(ts: seq<Task>, id: int): (r: seq<Task>)
    ensures forall t :: multiset(r)[t] == if t.id == id then 0 else multiset(ts)[t]
    ensures IsSubsequence(r, ts)
  {
    FilterContents(ts, (t: Task) => t.id != id);
    FilterIsSubsequence(ts, (t: Task) => t.id != id);
    Filter(ts, (t: Task) => t.id != id)
  }

  /** `countTotalTasksForSection`. */
  function CountTotal(ts: seq<Task>, sectionName: string): (n: nat)
    ensures n <= |ts|
  {
    |Filter(ts, (t: Task) => t.section == sectionName)|
  }

  /** `countCompletedTasksForSection`. */
  function CountCompleted(ts: seq<Task>, sectionName: string): (n: nat)
    ensures n <= |ts|
  {
    |Filter(ts, (t: Task) => t.section == sectionName && t.completed)|
  }

  /** A section never shows more completed tasks than tasks. */
  lemma {:induction false} CompletedAtMostTotal(ts: seq<Task>, sectionName: string)
    ensures CountCompleted(ts, sectionName) <= CountTotal(ts, sectionName)
  {
    if ts != [] {
      var init := ts[..|ts| - 1];
      assert ts == init + [ts[|ts| - 1]];
      CompletedAtMostTotal(init, sectionName);
      FilterAppend(init, ts[|ts| - 1], (t: Task) => t.section == sectionName);
      FilterAppend(init, ts[|ts| - 1], (t: Task) => t.section == sectionName && t.completed);
    }
  }

  lemma FilterIgnoresOrder<T(!new)>(a: seq<T>, b: seq<T>, keep: T -> bool)
    requires multiset(a) == multiset(b)
    ensures |Filter(a, keep)| == |Filter(b, keep)|
  {
    FilterContents(a, keep);
    FilterContents(b, keep);
    assert multiset(Filter(a, keep)) == multiset(Filter(b, keep));
    assert |multiset(Filter(a, keep))| == |Filter(a, keep)|;
    assert |multiset(Filter(b, keep))| == |Filter(b, keep)|;
  }

  /** The counts depend only on which tasks are stored, not on their order, so
      the reordering done by rendering never changes them. */
  lemma CountsIgnoreOrder(a: seq<Task>, b: seq<Task>, sectionName: string)
    requires multiset(a) == multiset(b)
    ensures CountTotal(a, sectionName) == CountTotal(b, sectionName)
    ensures CountCompleted(a, sectionName) == CountCompleted(b, sectionName)
  {
    FilterIgnoresOrder(a, b, (t: Task) => t.section == sectionName);
    FilterIgnoresOrder(a, b, (t: Task) => t.section == sectionName && t.completed);
  }

  /** Appending a task adds one to its own section's total and to nothing else;
      the completed counts move only if the appended task is completed. */
  lemma CountsAfterAppend(ts: seq<Task>, t: Task, sectionName: string)
    ensures CountTotal(ts + [t], sectionName) == CountTotal(ts, sectionName) + (if t.section == sectionName then 1 else 0)
    ensures CountCompleted(ts + [t], sectionName) == CountCompleted(ts, sectionName) + (if t.section == sectionName && t.completed then 1 else 0)
  {
    FilterAppend(ts, t, (t: Task) => t.section == sectionName);
    FilterAppend(ts, t, (t: Task) => t.section == sectionName && t.completed);
  }

  /** The comparator of `renderTodos` is negative: a is shown strictly before b. */
  predicate ShownBefore(a: Task, b: Task): (before: bool)
    ensures before ==> !a.completed || b.completed
    ensures before ==> !(a.completed == b.completed && a.createdAt == b.createdAt)
  {
    if a.completed != b.completed then !a.completed else a.createdAt > b.createdAt
  }

  /** Active tasks first, then completed ones; newest first within each group. */
  predicate InDisplayOrder(s: seq<Task>) {
    (forall i, j :: 0 <= i < |s| && 0 <= j < |s| && !s[i].completed && s[j].completed ==> i < j) &&
    (forall i, j :: 0 <= i < j < |s| && s[i].completed == s[j].completed ==> s[i].createdAt >= s[j].createdAt)
  }

  /** No later element is shown strictly before an earlier one. */
  ghost predicate Ordered(s: seq<Task>) {
    forall i, j :: 0 <= i < j < |s| ==> !ShownBefore(s[j], s[i])
  }

  lemma OrderedIsDisplayOrder(s: seq<Task>)
    ensures Ordered(s) <==> InDisplayOrder(s)
  {
  }

  /** Stable insertion: t goes before the first element it is shown strictly before. */
  function Insert(t: Task, r: seq<Task>): seq<Task> {
    if r == [] then [t]
    else if ShownBefore(t, r[0]) then [t] + r
    else [r[0]] + Insert(t, r[1..])
  }

  /** The order `filteredTodos.sort(...)` leaves: a stable sort by the comparator,
      inserting the elements in their original order. */
  function DisplaySort(s: seq<Task>): seq<Task> {
    if s == [] then [] else Insert(s[|s| - 1], DisplaySort(s[..|s| - 1]))
  }

  lemma MultisetOfFirst<T>(s: seq<T>)
    requires s != []
    ensures multiset(s) == multiset{s[0]} + multiset(s[1..])
  {
    assert s == [s[0]] + s[1..];
  }

  lemma {:induction false} InsertPermutes(t: Task, r: seq<Task>)
    ensures multiset(Insert(t, r)) == multiset(r) + multiset{t}
  {
    if r != [] && !ShownBefore(t, r[0]) {
      InsertPermutes(t, r[1..]);
      MultisetOfFirst(r);
    }
  }

  lemma ConsOrdered(x: Task, rest: seq<Task>)
    requires Ordered(rest)
    requires forall j :: 0 <= j < |rest| ==> !ShownBefore(rest[j], x)
    ensures Ordered([x] + rest)
  {
    var s := [x] + rest;
    forall i, j | 0 <= i < j < |s| ensures !ShownBefore(s[j], s[i]) {
      assert s[j] == rest[j - 1];
      if i > 0 {
        assert s[i] == rest[i - 1];
      }
    }
  }

  lemma {:induction false} InsertBounded(t: Task, r: seq<Task>, x: Task)
    requires forall j :: 0 <= j < |r| ==> !ShownBefore(r[j], x)
    requires !ShownBefore(t, x)
    ensures forall j :: 0 <= j < |Insert(t, r)| ==> !ShownBefore(Insert(t, r)[j], x)
  {
    if r != [] && !ShownBefore(t, r[0]) {
      InsertBounded(t, r[1..], x);
      assert Insert(t, r) == [r[0]] + Insert(t, r[1..]);
    }
  }

  lemma {:induction false} InsertOrdered(t: Task, r: seq<Task>)
    requires Ordered(r)
    ensures Ordered(Insert(t, r))
  {
    if r == [] {
    } else if ShownBefore(t, r[0]) {
      forall j | 0 <= j < |r| ensures !ShownBefore(r[j], t) {
        if j > 0 {
          assert !ShownBefore(r[j], r[0]);
        }
      }
      ConsOrdered(t, r);
    } else {
      var tail := r[1..];
      assert Ordered(tail);
      InsertOrdered(t, tail);
      forall j | 0 <= j < |tail| ensures !ShownBefore(tail[j], r[0]) {
        assert tail[j] == r[j + 1];
      }
      InsertBounded(t, tail, r[0]);
      ConsOrdered(r[0], Insert(t, tail));
    }
  }


  lemma MultisetOfLast<T>(s: seq<T>)
    requires s != []
    ensures multiset(s) == multiset(s[..|s| - 1]) + multiset{s[|s| - 1]}
  {
    assert s == s[..|s| - 1] + [s[|s| - 1]];
  }

  /** The sort keeps exactly the tasks it was given. */
  lemma {:induction false} DisplaySortPermutes(s: seq<Task>)
    ensures multiset(DisplaySort(s)) == multiset(s)
  {
    if s != [] {
      var init, x := s[..|s| - 1], s[|s| - 1];
      DisplaySortPermutes(init);
      InsertPermutes(x, DisplaySort(init));
      MultisetOfLast(s);
    }
  }

  lemma {:induction false} DisplaySortOrdered(s: seq<Task>)
    ensures Ordered(DisplaySort(s))
  {
    if s != [] {
      DisplaySortOrdered(s[..|s| - 1]);
      InsertOrdered(s[|s| - 1], DisplaySort(s[..|s| - 1]));
    }
  }

  /** The sort's result puts every active task before every completed one and is
      newest first within each group. */
  lemma DisplaySortInDisplayOrder(s: seq<Task>)
    ensures InDisplayOrder(DisplaySort(s))
    ensures |DisplaySort(s)| == |s|
  {
    DisplaySortOrdered(s);
    OrderedIsDisplayOrder(DisplaySort(s));
    DisplaySortPermutes(s);
    assert |multiset(DisplaySort(s))| == |multiset(s)|;
  }

  lemma {:induction false} InsertAtEnd(t: Task, r: seq<Task>)
    requires forall k :: 0 <= k < |r| ==> !ShownBefore(t, r[k])
    ensures Insert(t, r) == r + [t]
  {
    if r != [] {
      InsertAtEnd(t, r[1..]);
      assert r == [r[0]] + r[1..];
    }
  }

  /** A list already in display order is left as it is: rendering a second time
      with no change in between does not reorder the stored tasks again. */
  lemma {:induction false} DisplaySortKeepsOrdered(s: seq<Task>)
    requires InDisplayOrder(s)
    ensures DisplaySort(s) == s
  {
    if s != [] {
      var init := s[..|s| - 1];
      OrderedIsDisplayOrder(s);
      assert Ordered(init);
      OrderedIsDisplayOrder(init);
      DisplaySortKeepsOrdered(init);
      InsertAtEnd(s[|s| - 1], init);
      assert s == init + [s[|s| - 1]];
    }
  }

  /** Tasks the comparator cannot tell apart: same completion state and creation time. */
  predicate SameKey(a: Task, b: Task) {
    a.completed == b.completed && a.createdAt == b.createdAt
  }

  lemma {:induction false} FilterNone<T(!new)>(s: seq<T>, keep: T -> bool)
    requires forall i :: 0 <= i < |s| ==> !keep(s[i])
    ensures Filter(s, keep) == []
  {
    if s != [] {
      FilterNone(s[1..], keep);
    }
  }

  /** In an ordered list that a task of key k would precede, no task has key k. */
  lemma NoSameKeyAfter(x: Task, r: seq<Task>, k: Task)
    requires Ordered(r) && r != []
    requires ShownBefore(x, r[0]) && SameKey(x, k)
    ensures forall i :: 0 <= i < |r| ==> !SameKey(r[i], k)
  {
    forall i | 0 <= i < |r| ensures !SameKey(r[i], k) {
      if i > 0 {
        assert !ShownBefore(r[i], r[0]);
      }
    }
  }

  lemma FilterCons<T(!new)>(x: T, r: seq<T>, keep: T -> bool)
    ensures Filter([x] + r, keep) == (if keep(x) then [x] else []) + Filter(r, keep)
  {
    assert ([x] + r)[0] == x;
    assert ([x] + r)[1..] == r;
  }

  lemma {:induction false} FilterInsert(x: Task, r: seq<Task>, k: Task)
    requires Ordered(r)
    ensures Filter(Insert(x, r), (t: Task) => SameKey(t, k)) ==
            Filter(r, (t: Task) => SameKey(t, k)) + (if SameKey(x, k) then [x] else [])
  {
    var p := (t: Task) => SameKey(t, k);
    if r == [] {
      FilterCons(x, [], p);
      assert [x] + [] == [x];
    } else if ShownBefore(x, r[0]) {
      FilterCons(x, r, p);
      if SameKey(x, k) {
        NoSameKeyAfter(x, r, k);
        FilterNone(r, p);
      }
    } else {
      var tail := r[1..];
      assert Ordered(tail);
      FilterInsert(x, tail, k);
      FilterCons(r[0], Insert(x, tail), p);
      var head := if p(r[0]) then [r[0]] else [];
      var last := if SameKey(x, k) then [x] else [];
      assert Filter(r, p) == head + Filter(tail, p);
      assert head + (Filter(tail, p) + last) == (head + Filter(tail, p)) + last;
    }
  }

  /** The sort is stable: tasks with the same completion state and creation time
      keep the order they had in the input. */
  lemma {:induction false} DisplaySortStable(s: seq<Task>, k: Task)
    ensures Filter(DisplaySort(s), (t: Task) => SameKey(t, k)) == Filter(s, (t: Task) => SameKey(t, k))
  {
    if s != [] {
      var init := s[..|s| - 1];
      var x := s[|s| - 1];
      DisplaySortStable(init, k);
      DisplaySortOrdered(init);
      FilterInsert(x, DisplaySort(init), k);
      assert s == init + [x];
      FilterAppend(init, x, (t: Task) => SameKey(t, k));
    }
  }

  /** The selection `renderTodos` makes for a filter name: active tasks for
      "active", completed for "completed", the whole list for anything else. */
  function ViewSelection(ts: seq<Task>, filter: string): (r: seq<Task>)
    ensures forall t :: multiset(r)[t] == if (filter == "active" && t.completed) || (filter == "completed" && !t.completed) then 0 else multiset(ts)[t]
  {
    FilterContents(ts, (t: Task) => !t.completed);
    FilterContents(ts, (t: Task) => t.completed);
    if filter == "active" then Filter(ts, (t: Task) => !t.completed)
    else if filter == "completed" then Filter(ts, (t: Task) => t.completed)
    else ts
  }

  /** With any filter other than "active" and "completed", `filteredTodos` is
      `todos` itself, so the in-place sort reorders the stored list. */
  predicate AliasesStore(filter: string) {
    filter != "active" && filter != "completed"
  }

  /** The loop form of the sort: each task of s in turn is inserted into the
      already sorted prefix. */
  method SortForDisplay(s: seq<Task>) returns (r: seq<Task>)
    ensures r == DisplaySort(s)
    ensures multiset(r) == multiset(s)
    ensures InDisplayOrder(r)
  {
    r := [];
    var i := 0;
    while i < |s|
      invariant 0 <= i <= |s|
      invariant r == DisplaySort(s[..i])
    {
      assert s[..i + 1][..i] == s[..i];
      r := Insert(s[i], r);
      i := i + 1;
    }
    assert s[..i] == s;
    DisplaySortPermutes(s);
    DisplaySortInDisplayOrder(s);
  }
}
