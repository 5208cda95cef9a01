/** The newest-first ordering used by the task list and the dashboard:
    `sort((a, b) => b.createdAt - a.createdAt)`. JavaScript's sort is stable,
    so tasks created at the same instant keep their enumeration order. The
    sort is modelled as an insertion sort with these three properties proved. */
module ByDate {
  import opened Seqs
  import opened TaskTypes

  /** Every task is at least as new as every task after it. */
  predicate NewestFirstOrder(s: seq<Task>)
  {
    forall i, j :: 0 <= i < j < |s| ==> s[j].createdAt <= s[i].createdAt
  }

  /** A prefix of a sorted list is sorted and holds only tasks of the list. */
  lemma SortedPrefix(s: seq<Task>, n: nat)
    requires NewestFirstOrder(s) && n <= |s|
    ensures NewestFirstOrder(s[..n])
    ensures forall x :: x in s[..n] ==> x in s
  {
    forall x | x in s[..n] ensures x in s {
      var i :| 0 <= i < n && s[..n][i] == x;
      assert s[i] == x;
    }
  }

  /** A task at least as new as every task of a sorted list can go in front of it. */
  lemma PrependSorted(h: Task, s: seq<Task>)
    requires NewestFirstOrder(s)
    requires forall x :: x in s ==> x.createdAt <= h.createdAt
    ensures NewestFirstOrder([h] + s)
  {
    forall i, j | 0 <= i < j < |[h] + s| ensures ([h] + s)[j].createdAt <= ([h] + s)[i].createdAt {
      assert ([h] + s)[j] == s[j - 1];
      if i > 0 {
        assert ([h] + s)[i] == s[i - 1];
      } else {
        assert s[j - 1] in s;
      }
    }
  }

  /** The head of a sorted list is at least as new as all of it. */
  lemma HeadIsNewest(s: seq<Task>)
    requires NewestFirstOrder(s) && s != []
    ensures forall x :: x in s ==> x.createdAt <= s[0].createdAt
  {
    forall x | x in s ensures x.createdAt <= s[0].createdAt {
      var k :| 0 <= k < |s| && s[k] == x;
      assert k == 0 || s[k].createdAt <= s[0].createdAt;
    }
  }

  /** `t` placed before the first task of `s` that is not newer than it. */
  function InsertByDate(t: Task, s: seq<Task>): (r: seq<Task>)
    requires NewestFirstOrder(s)
    ensures NewestFirstOrder(r)
    ensures multiset(r) == multiset(s) + multiset{t}
    ensures forall x :: x in r ==> x == t || x in s
  {
    if s == [] then [t]
    else if s[0].createdAt <= t.createdAt then
      PrependSorted(t, s);
      [t] + s
    else
      var rest := InsertByDate(t, s[1..]);
      assert s == [s[0]] + s[1..];
      HeadIsNewest(s);
      assert forall x :: x in rest ==> x.createdAt <= s[0].createdAt;
      PrependSorted(s[0], rest);
      [s[0]] + rest
  }

  /** The tasks of `s` newest first. */
  function NewestFirst(s: seq<Task>): (r: seq<Task>)
    ensures NewestFirstOrder(r)
    ensures multiset(r) == multiset(s)
  {
    if s == [] then []
    else
      assert s == [s[0]] + s[1..];
      InsertByDate(s[0], NewestFirst(s[1..]))
  }

  /** Inserting a task keeps the relative order of any group of tasks that
      were created at `c`, and puts `t` ahead of the group's other members. */
  lemma {:induction false} InsertByDateStable(t: Task, s: seq<Task>, p: Task -> bool, c: Timestamp)
    requires NewestFirstOrder(s)
    requires forall x :: p(x) ==> x.createdAt == c
    ensures Filter(InsertByDate(t, s), p) == (if p(t) then [t] else []) + Filter(s, p)
    decreases |s|, 1
  {
    FilterSingle(t, p);
    if s == [] {
    } else if s[0].createdAt <= t.createdAt {
      FilterConcat([t], s, p);
    } else {
      InsertBehindStable(t, s, p, c);
    }
  }

  /** The case of `InsertByDateStable` where `t` goes behind the first task. */
  lemma {:induction false} InsertBehindStable(t: Task, s: seq<Task>, p: Task -> bool, c: Timestamp)
    requires NewestFirstOrder(s) && s != [] && t.createdAt < s[0].createdAt
    requires forall x :: p(x) ==> x.createdAt == c
    ensures Filter(InsertByDate(t, s), p) == (if p(t) then [t] else []) + Filter(s, p)
    decreases |s|, 0
  {
    var rest := InsertByDate(t, s[1..]);
    assert InsertByDate(t, s) == [s[0]] + rest;
    InsertByDateStable(t, s[1..], p, c);
    FilterPastHead(s[0], rest, s[1..], if p(t) then [t] else [], p);
    assert s == [s[0]] + s[1..];
  }

  /** If filtering `rest` gives `mine` ahead of what filtering `tail` gives,
      and `h` is dropped whenever `mine` is non-empty, the same holds with
      `h` in front of both. */
  lemma FilterPastHead<T>(h: T, rest: seq<T>, tail: seq<T>, mine: seq<T>, p: T -> bool)
    requires Filter(rest, p) == mine + Filter(tail, p)
    requires mine != [] ==> !p(h)
    ensures Filter([h] + rest, p) == mine + Filter([h] + tail, p)
  {
    FilterConcat([h], rest, p);
    FilterConcat([h], tail, p);
    FilterSingle(h, p);
    var ft := Filter(tail, p);
    if mine == [] {
      assert mine + ft == ft;
      assert mine + Filter([h] + tail, p) == Filter([h] + tail, p);
    } else {
      assert Filter([h], p) == [];
      assert Filter([h] + rest, p) == Filter(rest, p);
      assert Filter([h] + tail, p) == ft;
    }
  }

  /** Stability: within any group of tasks created at one instant `c`, the
      sorted list keeps the original order. */
  lemma {:induction false} NewestFirstStable(s: seq<Task>, p: Task -> bool, c: Timestamp)
    requires forall x :: p(x) ==> x.createdAt == c
    ensures Filter(NewestFirst(s), p) == Filter(s, p)
  {
    if s != [] {
      NewestFirstStable(s[1..], p, c);
      InsertByDateStable(s[0], NewestFirst(s[1..]), p, c);
      FilterConcat([s[0]], s[1..], p);
      assert s == [s[0]] + s[1..];
    }
  }

  /** Same-instant tasks in particular: for every creation time `c`, the
      tasks created at `c` appear in the sorted list in their original order. */
  lemma SameInstantKeepsOrder(s: seq<Task>, c: Timestamp)
    ensures Filter(NewestFirst(s), (t: Task) => t.createdAt == c) == Filter(s, (t: Task) => t.createdAt == c)
  {
    NewestFirstStable(s, (t: Task) => t.createdAt == c, c);
  }

  /** The sorted list has the same elements as the input. */
  lemma NewestFirstMembers(s: seq<Task>)
    ensures |NewestFirst(s)| == |s|
    ensures forall t :: t in NewestFirst(s) <==> t in s
  {
    var r := NewestFirst(s);
    assert |multiset(r)| == |multiset(s)|;
    forall t ensures t in r <==> t in s {
      assert t in r <==> t in multiset(r);
      assert t in s <==> t in multiset(s);
    }
  }
}
