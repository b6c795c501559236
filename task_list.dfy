/**
 * The task list's query pipeline (`filterAndSortTasks`) and the two handlers
 * that patch its local copy of the tasks after a card updates or deletes one.
 */
module TaskList {
  import opened Wrappers
  import opened Seqs
  import opened Strings
  import opened TaskModel
  import opened TaskRepository

  /** The list's filter state: search box, category sidebar, sort and status selects, and the `limit` prop. */
  datatype ListQuery = ListQuery(
    searchTerm: string,
    selectedCategory: Option<string>,
    statusFilter: string,
    sortBy: string,
    limit: int)

  /** `task.parentTaskId` is truthy: the task is a subtask. */
  predicate HasParent(t: Task) {
    t.parentTaskId.Some? && t.parentTaskId.value != ""
  }

  predicate IsRoot(t: Task) {
    !HasParent(t)
  }

  /** Title or description contains the term, both lower-cased. */
  predicate MatchesSearch(t: Task, term: string) {
    Includes(ToLower(t.title), ToLower(term)) || Includes(ToLower(t.description), ToLower(term))
  }

  function SearchFilter(term: string): Task -> bool {
    (t: Task) => MatchesSearch(t, term)
  }

  function CategoryFilter(categoryId: string): Task -> bool {
    (t: Task) => t.categoryId == categoryId
  }

  function StatusFilter(status: string): Task -> bool {
    (t: Task) => t.status == status
  }

  /** `selectedCategory` is truthy (neither null nor ""). */
  predicate CategorySelected(q: ListQuery) {
    q.selectedCategory.Some? && q.selectedCategory.value != ""
  }

  /** Everything the four filter steps ask of a task. */
  predicate Kept(t: Task, q: ListQuery) {
    && !HasParent(t)
    && (q.searchTerm != "" ==> MatchesSearch(t, q.searchTerm))
    && (CategorySelected(q) ==> t.categoryId == q.selectedCategory.value)
    && (q.statusFilter != "all" ==> t.status == q.statusFilter)
  }

  /** The list after the four filter steps, before sorting. */
  function Selected(tasks: seq<Task>, q: ListQuery): (r: seq<Task>)
    ensures multiset(r) <= multiset(tasks)
  {
    var roots := Filter(tasks, IsRoot);
    FilterSubMultiset(tasks, IsRoot);
    var searched :=
      if q.searchTerm != "" then
        FilterSubMultiset(roots, SearchFilter(q.searchTerm));
        Filter(roots, SearchFilter(q.searchTerm))
      else roots;
    var inCategory :=
      if CategorySelected(q) then
        FilterSubMultiset(searched, CategoryFilter(q.selectedCategory.value));
        Filter(searched, CategoryFilter(q.selectedCategory.value))
      else searched;
    if q.statusFilter != "all" then
      FilterSubMultiset(inCategory, StatusFilter(q.statusFilter));
      Filter(inCategory, StatusFilter(q.statusFilter))
    else inCategory
  }

  /** A task is selected exactly when it is stored and passes every filter step that is switched on. */
  lemma SelectedMembers(tasks: seq<Task>, q: ListQuery, t: Task)
    ensures t in Selected(tasks, q) <==> t in tasks && Kept(t, q)
  {
    var roots := Filter(tasks, IsRoot);
    assert t in roots <==> t in tasks && !HasParent(t);

    var searched := if q.searchTerm != "" then Filter(roots, SearchFilter(q.searchTerm)) else roots;
    if q.searchTerm != "" {
      assert SearchFilter(q.searchTerm)(t) == MatchesSearch(t, q.searchTerm);
    }
    assert t in searched <==> t in roots && (q.searchTerm != "" ==> MatchesSearch(t, q.searchTerm));

    var inCategory := if CategorySelected(q) then Filter(searched, CategoryFilter(q.selectedCategory.value)) else searched;
    assert t in inCategory <==> t in searched && (CategorySelected(q) ==> t.categoryId == q.selectedCategory.value);
  }

  /** Every task of a sub-multiset of the selection passes the filters. */
  lemma SubsetOfSelected(tasks: seq<Task>, q: ListQuery, r: seq<Task>)
    requires multiset(r) <= multiset(Selected(tasks, q))
    ensures forall t :: t in r ==> t in tasks && Kept(t, q)
  {
    forall t | t in r
      ensures t in tasks && Kept(t, q)
    {
      assert t in multiset(Selected(tasks, q));
      SelectedMembers(tasks, q, t);
    }
  }

  /** With a non-empty term, every selected task mentions the term in its title or description, ignoring case. */
  lemma SearchMatchesSubstring(tasks: seq<Task>, q: ListQuery, t: Task)
    requires q.searchTerm != "" && t in Selected(tasks, q)
    ensures (exists i :: OccursAt(ToLower(t.title), ToLower(q.searchTerm), i)) ||
            (exists i :: OccursAt(ToLower(t.description), ToLower(q.searchTerm), i))
  {
    SelectedMembers(tasks, q, t);
    IncludesIff(ToLower(t.title), ToLower(q.searchTerm));
    IncludesIff(ToLower(t.description), ToLower(q.searchTerm));
  }

  /** An empty search term, no category and status 'all' keep every task that is not a subtask. */
  lemma UnfilteredKeepsRoots(tasks: seq<Task>, sortBy: string, limit: int)
    ensures Selected(tasks, ListQuery("", None, "all", sortBy, limit)) == Filter(tasks, IsRoot)
  {
  }

  /** The cases of the comparator's `switch (sortBy)`; any other value falls to `default`. */
  datatype SortKey = ByDueDate | ByTitle | ByStatus | ByCreatedAt | Unsorted

  function SortKeyOf(sortBy: string): (k: SortKey)
    ensures k == Unsorted <==> !IsSortKey(sortBy)
  {
    if sortBy == "dueDate" then ByDueDate
    else if sortBy == "title" then ByTitle
    else if sortBy == "status" then ByStatus
    else if sortBy == "createdAt" then ByCreatedAt
    else Unsorted
  }

  /** The sort keys the comparator recognises. */
  predicate IsSortKey(sortBy: string) {
    sortBy == "dueDate" || sortBy == "title" || sortBy == "status" || sortBy == "createdAt"
  }

  /**
   * The comparator returns a negative number: `a` goes strictly before `b`.
   * Due dates ascend, creation times descend, titles and statuses follow the
   * string order; any other key compares everything as equal.
   */
  predicate Before(a: Task, b: Task, key: SortKey)
    ensures Before(a, b, key) ==> key != Unsorted && a != b
  {
    match key
    case ByDueDate => a.dueDate < b.dueDate
    case ByTitle => LessIrreflexive(a.title); Less(a.title, b.title)
    case ByStatus => LessIrreflexive(a.status); Less(a.status, b.status)
    case ByCreatedAt => b.createdAt < a.createdAt
    case Unsorted => false
  }

  predicate SortedBy(s: seq<Task>, key: SortKey) {
    forall i, j :: 0 <= i < j < |s| ==> !Before(s[j], s[i], key)
  }

  lemma BeforeAsymmetric(a: Task, b: Task, key: SortKey)
    requires Before(a, b, key)
    ensures !Before(b, a, key)
  {
    match key
    case ByTitle => LessAsymmetric(a.title, b.title);
    case ByStatus => LessAsymmetric(a.status, b.status);
    case _ =>
  }

  /** "Not strictly after" is transitive for every key. */
  lemma NotBeforeTransitive(a: Task, b: Task, c: Task, key: SortKey)
    requires !Before(b, a, key) && !Before(c, b, key)
    ensures !Before(c, a, key)
  {
    match key
    case ByTitle => NotLessTransitive(a.title, b.title, c.title);
    case ByStatus => NotLessTransitive(a.status, b.status, c.status);
    case _ =>
  }

  lemma NotLessTransitive(x: string, y: string, z: string)
    requires !Less(y, x) && !Less(z, y)
    ensures !Less(z, x)
  {
    if x != y && y != z {
      LessTotal(x, y);
      LessTotal(y, z);
      LessTransitive(x, y, z);
      LessAsymmetric(x, z);
    }
  }

  /** Neither task goes strictly before the other: the comparator returns 0 for them. */
  predicate Tied(a: Task, b: Task, key: SortKey) {
    !Before(a, b, key) && !Before(b, a, key)
  }

  /** The tasks tied with `r`, as a filter. */
  function TiedWith(r: Task, key: SortKey): Task -> bool {
    (t: Task) => Tied(r, t, key)
  }

  /** Every group of mutually tied tasks appears in `s` in the same order as in `orig`. */
  ghost predicate KeepsTies(s: seq<Task>, orig: seq<Task>, key: SortKey) {
    forall r :: Filter(s, TiedWith(r, key)) == Filter(orig, TiedWith(r, key))
  }

  lemma KeepsTiesTransitive(s: seq<Task>, t: seq<Task>, u: seq<Task>, key: SortKey)
    requires KeepsTies(s, t, key) && KeepsTies(t, u, key)
    ensures KeepsTies(s, u, key)
  {
    forall r ensures Filter(s, TiedWith(r, key)) == Filter(u, TiedWith(r, key)) {
      assert Filter(s, TiedWith(r, key)) == Filter(t, TiedWith(r, key));
    }
  }

  /** With the key ignored everything is tied, so keeping ties keeps the whole list. */
  lemma UnsortedKeepsAll(s: seq<Task>, orig: seq<Task>)
    requires KeepsTies(s, orig, Unsorted)
    ensures s == orig
  {
    if s != [] || orig != [] {
      var p := TiedWith(if s != [] then s[0] else orig[0], Unsorted);
      FilterAll(s, p);
      FilterAll(orig, p);
      assert Filter(s, p) == Filter(orig, p);
    }
  }

  /** Swapping two adjacent tasks, the right one strictly before the left, keeps every group of ties. */
  lemma SwapKeepsTies(s: seq<Task>, j: nat, key: SortKey)
    requires 0 < j < |s| && Before(s[j], s[j - 1], key)
    ensures KeepsTies(s[j - 1 := s[j]][j := s[j - 1]], s, key)
  {
    var t := s[j - 1 := s[j]][j := s[j - 1]];
    var x, y := s[j - 1], s[j];
    var pre, post := s[..j - 1], s[j + 1..];
    assert s == pre + [x, y] + post;
    assert t == pre + [y, x] + post;
    forall r ensures Filter(t, TiedWith(r, key)) == Filter(s, TiedWith(r, key)) {
      var p := TiedWith(r, key);
      assert !(p(x) && p(y)) by {
        if p(x) && p(y) {
          NotBeforeTransitive(x, r, y, key);
        }
      }
      FilterConcat(pre + [x, y], post, p);
      FilterConcat(pre, [x, y], p);
      FilterConcat(pre + [y, x], post, p);
      FilterConcat(pre, [y, x], p);
      FilterConcat([x], [y], p);
      FilterConcat([y], [x], p);
    }
  }

  /**
   * Mid-pass state of insertion on `s[..i + 1]`, a rearrangement of `orig`
   * that keeps every group of ties: the prefix is sorted except around the
   * moving element at `j`, which goes before nothing to its right.
   */
  ghost predicate Inserting(s: seq<Task>, orig: seq<Task>, j: nat, i: nat, key: SortKey) {
    && j <= i < |s|
    && (forall m, n :: 0 <= m < n <= i && m != j && n != j ==> !Before(s[n], s[m], key))
    && (forall n :: j < n <= i ==> !Before(s[n], s[j], key))
    && multiset(s) == multiset(orig)
    && KeepsTies(s, orig, key)
    && (key == Unsorted ==> s == orig)
  }

  /** Swapping the moving element with a left neighbour it goes before keeps the state. */
  lemma SwapStep(s: seq<Task>, orig: seq<Task>, j: nat, i: nat, key: SortKey)
    requires Inserting(s, orig, j, i, key) && 0 < j
    requires Before(s[j], s[j - 1], key)
    ensures Inserting(s[j - 1 := s[j]][j := s[j - 1]], orig, j - 1, i, key)
  {
    BeforeAsymmetric(s[j], s[j - 1], key);
    var t := s[j - 1 := s[j]][j := s[j - 1]];
    forall n | j - 1 < n <= i
      ensures !Before(t[n], t[j - 1], key)
    {
      if n > j {
        assert t[n] == s[n];
      }
    }
    SwapKeepsTies(s, j, key);
    KeepsTiesTransitive(t, s, orig, key);
  }

  /** The moving element stopped: nothing to its left comes after it, so the prefix is sorted. */
  lemma InsertDone(s: seq<Task>, orig: seq<Task>, j: nat, i: nat, key: SortKey)
    requires Inserting(s, orig, j, i, key)
    requires j == 0 || !Before(s[j], s[j - 1], key)
    ensures forall m, n :: 0 <= m < n <= i ==> !Before(s[n], s[m], key)
  {
    forall m | 0 <= m < j
      ensures !Before(s[j], s[m], key)
    {
      if m < j - 1 {
        NotBeforeTransitive(s[m], s[j - 1], s[j], key);
      }
    }
  }

  /**
   * One pass of insertion: the element at `i` moves left past every element
   * it goes strictly before, so `a[..i + 1]` ends up sorted.
   */
  method InsertAt(a: array<Task>, i: nat, key: SortKey)
    requires i < a.Length
    requires forall m, n :: 0 <= m < n < i ==> !Before(a[n], a[m], key)
    modifies a
    ensures forall m, n :: 0 <= m < n <= i ==> !Before(a[n], a[m], key)
    ensures multiset(a[..]) == multiset(old(a[..]))
    ensures KeepsTies(a[..], old(a[..]), key)
    ensures key == Unsorted ==> a[..] == old(a[..])
  {
    var j: nat := i;
    while j > 0 && Before(a[j], a[j - 1], key)
      invariant Inserting(a[..], old(a[..]), j, i, key)
    {
      ghost var s := a[..];
      SwapStep(s, old(a[..]), j, i, key);
      a[j - 1], a[j] := a[j], a[j - 1];
      assert a[..] == s[j - 1 := s[j]][j := s[j - 1]];
      j := j - 1;
    }
    InsertDone(a[..], old(a[..]), j, i, key);
  }

  /**
   * `filtered.sort(comparator)` in place. The engine's sort is stable, and so
   * is this insertion sort: tied tasks keep their original relative order.
   */
  method SortTasks(a: array<Task>, key: SortKey)
    modifies a
    ensures SortedBy(a[..], key)
    ensures multiset(a[..]) == multiset(old(a[..]))
    ensures KeepsTies(a[..], old(a[..]), key)
    ensures key == Unsorted ==> a[..] == old(a[..])
  {
    var i := 0;
    while i < a.Length
      invariant 0 <= i <= a.Length
      invariant forall m, n :: 0 <= m < n < i ==> !Before(a[n], a[m], key)
      invariant multiset(a[..]) == multiset(old(a[..]))
      invariant KeepsTies(a[..], old(a[..]), key)
      invariant key != Unsorted || a[..] == old(a[..])
    {
      ghost var s := a[..];
      InsertAt(a, i, key);
      KeepsTiesTransitive(a[..], s, old(a[..]), key);
      i := i + 1;
    }
  }

  /** The end index of `s.slice(0, limit)` on a list of length `n`. */
  function SliceEnd(n: nat, limit: int): (k: nat)
    ensures k <= n
    ensures limit >= 0 ==> k == if limit < n then limit else n
    ensures limit < 0 ==> k == if n + limit > 0 then n + limit else 0
  {
    if limit >= 0 then (if limit < n then limit else n)
    else if n + limit > 0 then n + limit else 0
  }

  /** `if (limit) filtered = filtered.slice(0, limit)`: 0 leaves the list whole. */
  function ApplyLimit(s: seq<Task>, limit: int): (r: seq<Task>)
    ensures |r| <= |s| && r == s[..|r|]
    ensures limit == 0 ==> r == s
    ensures limit > 0 ==> |r| <= limit && (|r| == limit || r == s)
  {
    if limit != 0 then s[..SliceEnd(|s|, limit)] else s
  }

  /** In a sorted list, nothing after a prefix goes strictly before anything in it. */
  lemma SortedPrefix(s: seq<Task>, k: nat, key: SortKey)
    requires SortedBy(s, key) && k <= |s|
    ensures forall x, y :: x in s[..k] && y in multiset(s) - multiset(s[..k]) ==> !Before(y, x, key)
  {
    assert s == s[..k] + s[k..];
    assert multiset(s) - multiset(s[..k]) == multiset(s[k..]);
    forall x, y | x in s[..k] && y in multiset(s) - multiset(s[..k])
      ensures !Before(y, x, key)
    {
      var m :| 0 <= m < k && s[m] == x;
      assert y in s[k..];
      var n :| k <= n < |s| && s[n] == y;
    }
  }

  /** Truncating a sorted permutation of `selected` gives a sorted prefix of it in sort order. */
  lemma LimitOfSorted(selected: seq<Task>, sorted: seq<Task>, limit: int, key: SortKey)
    requires multiset(sorted) == multiset(selected) && SortedBy(sorted, key)
    ensures var r := ApplyLimit(sorted, limit);
      && multiset(r) <= multiset(selected)
      && SortedBy(r, key)
      && |r| == |ApplyLimit(selected, limit)|
      && forall x, y :: x in r && y in multiset(selected) - multiset(r) ==> !Before(y, x, key)
  {
    var r := ApplyLimit(sorted, limit);
    assert |sorted| == |selected| by {
      assert |multiset(sorted)| == |multiset(selected)|;
    }
    assert sorted == r + sorted[|r|..];
    SortedPrefix(sorted, |r|, key);
    assert sorted[..|r|] == r;
  }

  /** The filter steps of `filterAndSortTasks`, each reassigning the local list. */
  method ApplyFilters(tasks: seq<Task>, q: ListQuery) returns (filtered: seq<Task>)
    ensures filtered == Selected(tasks, q)
  {
    filtered := Filter(tasks, IsRoot);
    if q.searchTerm != "" {
      filtered := Filter(filtered, SearchFilter(q.searchTerm));
    }
    if CategorySelected(q) {
      filtered := Filter(filtered, CategoryFilter(q.selectedCategory.value));
    }
    if q.statusFilter != "all" {
      filtered := Filter(filtered, StatusFilter(q.statusFilter));
    }
  }

  /**
   * `filterAndSortTasks`: the first `limit` tasks of the selected ones in
   * sort order. No task is invented or duplicated, no subtask appears, and
   * every task left out by the limit is one that does not go strictly before
   * any task shown.
   */
  method FilterAndSortTasks(tasks: seq<Task>, q: ListQuery) returns (filtered: seq<Task>)
    ensures multiset(filtered) <= multiset(Selected(tasks, q))
    ensures forall t :: t in filtered ==> t in tasks && Kept(t, q)
    ensures SortedBy(filtered, SortKeyOf(q.sortBy))
    ensures |filtered| == |ApplyLimit(Selected(tasks, q), q.limit)|
    ensures forall x, y :: x in filtered && y in multiset(Selected(tasks, q)) - multiset(filtered) ==>
                           !Before(y, x, SortKeyOf(q.sortBy))
    ensures !IsSortKey(q.sortBy) ==> filtered == ApplyLimit(Selected(tasks, q), q.limit)
    ensures forall r :: Filter(filtered, TiedWith(r, SortKeyOf(q.sortBy))) <=
                        Filter(Selected(tasks, q), TiedWith(r, SortKeyOf(q.sortBy)))
  {
    filtered := ApplyFilters(tasks, q);
    ghost var selected := filtered;

    var a := new Task[|filtered|](i requires 0 <= i < |filtered| => filtered[i]);
    assert a[..] == selected;
    SortTasks(a, SortKeyOf(q.sortBy));
    filtered := a[..];
    LimitOfSorted(selected, filtered, q.limit, SortKeyOf(q.sortBy));
    ghost var sorted := filtered;

    if q.limit != 0 {
      filtered := filtered[..SliceEnd(|filtered|, q.limit)];
    }
    SubsetOfSelected(tasks, q, filtered);
    forall r ensures Filter(filtered, TiedWith(r, SortKeyOf(q.sortBy))) <=
                     Filter(selected, TiedWith(r, SortKeyOf(q.sortBy))) {
      FilterPrefix(sorted, |filtered|, TiedWith(r, SortKeyOf(q.sortBy)));
    }
  }

  /** `handleTaskUpdate`: every task with the updated task's id is replaced by it. */
  function ReplaceById(tasks: seq<Task>, updated: Task): (r: seq<Task>)
    ensures |r| == |tasks|
    ensures forall i :: 0 <= i < |tasks| && tasks[i].id == updated.id ==> r[i] == updated
    ensures forall i :: 0 <= i < |tasks| && tasks[i].id != updated.id ==> r[i] == tasks[i]
  {
    if tasks == [] then []
    else [if tasks[0].id == updated.id then updated else tasks[0]] + ReplaceById(tasks[1..], updated)
  }

  function HasOtherId(id: string): Task -> bool {
    (t: Task) => t.id != id
  }

  /** `handleTaskDelete`: every task with that id is dropped, the rest keep their order. */
  function RemoveById(tasks: seq<Task>, id: string): (r: seq<Task>)
    ensures forall t :: t in r <==> t in tasks && t.id != id
  {
    Filter(tasks, HasOtherId(id))
  }

  /** With unique ids, the list's replace agrees with the service's `update` at the found index. */
  lemma ReplaceAgreesWithUpdate(tasks: seq<Task>, id: string, updates: TaskPatch)
    requires UniqueIds(tasks) && IndexOfId(tasks, id).Some?
    requires updates.id.None? || updates.id == Some(id)
    ensures var i := IndexOfId(tasks, id).value;
      ReplaceById(tasks, Merge(tasks[i], updates)) == tasks[i := Merge(tasks[i], updates)]
  {
  }

  /** With unique ids, the list's remove agrees with the service's `delete` at the found index. */
  lemma RemoveAgreesWithDelete(tasks: seq<Task>, id: string)
    requires UniqueIds(tasks) && IndexOfId(tasks, id).Some?
    ensures var i := IndexOfId(tasks, id).value;
      RemoveById(tasks, id) == tasks[..i] + tasks[i + 1..]
  {
    var i := IndexOfId(tasks, id).value;
    assert forall k :: 0 <= k < |tasks| && k != i ==> HasOtherId(id)(tasks[k]);
    FilterDropsOne(tasks, HasOtherId(id), i);
  }
}
