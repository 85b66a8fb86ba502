/**
 * The in-memory task list of the dictionary-backed command-line tool
 * (main_dict.py): a Python `dict` from integer index to a task record. The
 * dict remembers insertion order, which `show` prints and which `sorted`
 * keeps for equal priorities, so the model keeps the keys in insertion order
 * beside the map from key to record.
 */
module TaskDict {
  import opened Tables
  import opened Text
  import opened PrioritySort

  /** The record {"Name", "Description", "Priority", "Status"} stored under each index. */
  datatype Task = Task(name: string, description: string, priority: int, status: string)

  /** Which message `task_status` prints. */
  datatype StatusOutcome = StatusIndexMissing | AlreadyMarked | StatusChanged

  /** Which path `delete` takes. */
  datatype DeleteOutcome = DeleteIndexMissing | Declined | Removed

  /** Python's `max` over a non-empty sequence of keys. */
  function Max(s: seq<int>): (m: int)
    requires s != []
    ensures m in s
    ensures forall x :: x in s ==> x <= m
  {
    if |s| == 1 then s[0]
    else
      var rest := Max(s[1..]);
      assert s == [s[0]] + s[1..];
      if s[0] >= rest then s[0] else rest
  }

  /** The index `create` assigns: one more than the largest key, or 1 for an empty dict. */
  function NextIndex(keys: seq<int>): (k: int)
    ensures forall x :: x in keys ==> x < k
    ensures keys == [] ==> k == 1
    ensures keys != [] ==> k - 1 in keys
  {
    if keys == [] then 1 else Max(keys) + 1
  }

  predicate Distinct(s: seq<int>)
  {
    forall i, j :: 0 <= i < j < |s| ==> s[i] != s[j]
  }

  /** `s` with `x` taken out, the others keeping their order (what `del` does to the key order). */
  function Without(s: seq<int>, x: int): (r: seq<int>)
    ensures forall y :: y in r <==> y in s && y != x
    ensures Distinct(s) ==> Distinct(r)
  {
    if s == [] then []
    else if s[0] == x then Without(s[1..], x)
    else
      var rest := Without(s[1..], x);
      assert Distinct(s) ==> s[0] !in s[1..] by {
        assert Distinct(s) ==> forall j :: 0 <= j < |s| - 1 ==> s[1..][j] == s[j + 1] != s[0];
      }
      [s[0]] + rest
  }

  /** `dict.items()` for the keys `order`, in that order. */
  function ItemsOf(order: seq<int>, tasks: map<int, Task>): (items: seq<Row<Task>>)
    requires forall i :: 0 <= i < |order| ==> order[i] in tasks
    ensures |items| == |order|
    ensures forall i :: 0 <= i < |items| ==> items[i] == Row(order[i], tasks[order[i]])
  {
    if order == [] then [] else [Row(order[0], tasks[order[0]])] + ItemsOf(order[1..], tasks)
  }

  /** With distinct keys, the items list every entry for those keys exactly once. */
  lemma {:induction false} ItemsOfCounts(order: seq<int>, tasks: map<int, Task>)
    requires forall i :: 0 <= i < |order| ==> order[i] in tasks
    requires Distinct(order)
    ensures forall r :: multiset(ItemsOf(order, tasks))[r] ==
                        if r.id in order && tasks[r.id] == r.fields then 1 else 0
  {
    if order != [] {
      var rest := order[1..];
      ItemsOfCounts(rest, tasks);
      assert ItemsOf(order, tasks) == [Row(order[0], tasks[order[0]])] + ItemsOf(rest, tasks);
      assert order[0] !in rest by {
        assert forall j :: 0 <= j < |rest| ==> rest[j] == order[j + 1] != order[0];
      }
      forall r ensures multiset(ItemsOf(order, tasks))[r] ==
                       if r.id in order && tasks[r.id] == r.fields then 1 else 0 {
        assert r.id in order <==> r.id == order[0] || r.id in rest by {
          assert order == [order[0]] + rest;
        }
      }
    }
  }

  function PriorityOf(item: Row<Task>): int
  {
    item.fields.priority
  }

  class TaskStore {
    /** The dict's keys in insertion order. */
    var order: seq<int>
    /** The dict itself: index to task record. */
    var tasks: map<int, Task>

    ghost predicate Valid()
      reads this
    {
      && Distinct(order)
      && (forall i :: 0 <= i < |order| ==> order[i] in tasks)
      && (forall k :: k in tasks ==> k in order)
      && (forall k :: k in tasks ==> k >= 1)
    }

    /** `db: dict[int, dict] = {}` */
    constructor ()
      ensures Valid() && order == [] && tasks == map[]
    {
      order := [];
      tasks := map[];
    }

    /** `database.items()`: every entry exactly once, in insertion order; `show` prints these. */
    function Items(): (items: seq<Row<Task>>)
      reads this
      requires Valid()
      ensures Enumerates(items, tasks)
      ensures |items| == |order| && forall i :: 0 <= i < |items| ==> items[i].id == order[i]
    {
      ItemsOfCounts(order, tasks);
      ItemsOf(order, tasks)
    }

    /**
     * `create`: stores the record under `max(keys) + 1` (1 when empty), a key
     * greater than every existing one, and touches no other entry.
     */
    method Create(name: string, description: string, priority: int, status: string) returns (index: int)
      requires Valid()
      modifies this
      ensures Valid()
      ensures index == NextIndex(old(order))
      ensures index >= 1 && forall k :: k in old(tasks) ==> k < index
      ensures tasks == old(tasks)[index := Task(name, description, priority, status)]
      ensures order == old(order) + [index]
    {
      index := NextIndex(order);
      forall i | 0 <= i < |order| ensures order[i] < index {
        assert order[i] in order;
      }
      tasks := tasks[index := Task(name, description, priority, status)];
      order := order + [index];
    }

    /**
     * `task_status`: a missing index or an unchanged status leaves the dict as
     * it was; otherwise only the Status field of that one record changes.
     */
    method TaskStatus(index: int, status: string) returns (outcome: StatusOutcome)
      requires Valid()
      modifies this
      ensures Valid() && order == old(order)
      ensures outcome == StatusIndexMissing <==> index !in old(tasks)
      ensures outcome == AlreadyMarked <==> index in old(tasks) && old(tasks)[index].status == status
      ensures outcome != StatusChanged ==> tasks == old(tasks)
      ensures outcome == StatusChanged ==>
                tasks == old(tasks)[index := old(tasks)[index].(status := status)]
    {
      if index !in tasks {
        return StatusIndexMissing;
      }
      if tasks[index].status == status {
        outcome := AlreadyMarked;
      } else {
        tasks := tasks[index := tasks[index].(status := status)];
        outcome := StatusChanged;
      }
    }

    /**
     * `delete`, with the answer to the confirmation prompt as a parameter:
     * only an existing index confirmed with "yes" in any letter case removes
     * that one entry.
     */
    method Delete(index: int, answer: string) returns (outcome: DeleteOutcome)
      requires Valid()
      modifies this
      ensures Valid()
      ensures outcome == DeleteIndexMissing <==> index !in old(tasks)
      ensures outcome == Removed <==> index in old(tasks) && Lower(answer) == "yes"
      ensures outcome != Removed ==> tasks == old(tasks) && order == old(order)
      ensures outcome == Removed ==> tasks == old(tasks) - {index} && order == Without(old(order), index)
    {
      if index !in tasks {
        return DeleteIndexMissing;
      }
      if Lower(answer) == "yes" {
        tasks := tasks - {index};
        order := Without(order, index);
        forall i | 0 <= i < |order| ensures order[i] in tasks {
          assert order[i] in order;
        }
        outcome := Removed;
      } else {
        outcome := Declined;
      }
    }

    /**
     * `sort_by`: the items ordered by priority, highest first for "descending"
     * and lowest first for any other string; equal priorities keep insertion
     * order.
     */
    function SortBy(kind: string): (sorted: seq<Row<Task>>)
      reads this
      requires Valid()
      ensures multiset(sorted) == multiset(Items())
      ensures Enumerates(sorted, tasks)
      ensures SortedBy(sorted, PriorityOf, kind == "descending")
      ensures forall p :: WithKey(sorted, PriorityOf, p) == WithKey(Items(), PriorityOf, p)
    {
      var items := Items();
      var descending := kind == "descending";
      SortPermutes(items, PriorityOf, descending);
      SortSorted(items, PriorityOf, descending);
      forall p ensures WithKey(Sort(items, PriorityOf, descending), PriorityOf, p) == WithKey(items, PriorityOf, p) {
        SortStable(items, PriorityOf, descending, p);
      }
      Sort(items, PriorityOf, descending)
    }
  }
}
