/**
 * The tree-shaped writers of the extra writers: `RecordedDFSEntryTree`
 * turns the flat Begin/End entry stream into traversal tasks (node id,
 * parent id, one-past-the-subtree index), `TemplightTreeWriter::finalize`
 * walks them with an explicit stack and emits well-bracketed open and
 * close calls, and the GraphML and Graphviz writers turn each opened node
 * into a node record and, for a node with a parent, an edge.
 *
 * The text layout (`llvm::format`, durations as `%.9f`) is not modelled:
 * the writers' output is the sequence of records they emit.
 */
module ExtraWriters {

  import opened ThinProtobuf
  import opened Entries

  datatype Option<T> = None | Some(value: T)

  /** `EntryTraversalTask::invalid_id`, the largest `size_t`. */
  const INVALID: nat := TWO_64 - 1

  /** `EntryTraversalTask`: a Begin, its End once seen, its node id, the
      index one past its subtree (INVALID while open) and its parent. */
  datatype Task = Task(start: Begin, finish: End, id: nat, idEnd: nat, parent: nat)

  function Parents(tasks: seq<Task>): (r: seq<nat>)
    ensures |r| == |tasks| && forall i | 0 <= i < |tasks| :: r[i] == tasks[i].parent
  {
    if tasks == [] then [] else Parents(tasks[..|tasks| - 1]) + [tasks[|tasks| - 1].parent]
  }

  function Ends(tasks: seq<Task>): (r: seq<nat>)
    ensures |r| == |tasks| && forall i | 0 <= i < |tasks| :: r[i] == tasks[i].idEnd
  {
    if tasks == [] then [] else Ends(tasks[..|tasks| - 1]) + [tasks[|tasks| - 1].idEnd]
  }

  /** Whether node `j` lies in the subtree of node `i`: `j` reaches `i` by
      following parent links. */
  predicate InSubtree(parents: seq<nat>, i: nat, j: nat)
    decreases j
  {
    if j == i then true
    else if j < |parents| && parents[j] < j then InSubtree(parents, i, parents[j])
    else false
  }

  lemma {:induction false} SubtreeOrdered(parents: seq<nat>, i: nat, j: nat)
    requires InSubtree(parents, i, j)
    ensures i <= j
    decreases j
  {
    if j != i {
      SubtreeOrdered(parents, i, parents[j]);
    }
  }

  lemma {:induction false} SubtreeTransitive(parents: seq<nat>, i: nat, j: nat, k: nat)
    requires InSubtree(parents, i, j) && InSubtree(parents, j, k)
    ensures InSubtree(parents, i, k)
    decreases k
  {
    if k != j {
      SubtreeTransitive(parents, i, j, parents[k]);
    }
  }

  /** A new last node changes no earlier node's ancestry. */
  lemma {:induction false} SubtreeAppend(parents: seq<nat>, p: nat, i: nat, j: nat)
    requires j < |parents|
    ensures InSubtree(parents + [p], i, j) == InSubtree(parents, i, j)
    decreases j
  {
    if j != i && parents[j] < j {
      assert (parents + [p])[j] == parents[j];
      SubtreeAppend(parents, p, i, parents[j]);
    }
  }

  // ---------------------------------------------------------------------
  // Building the tree

  /** The recorded tasks and the innermost open one (`cur_top`). */
  datatype Tree = Tree(tasks: seq<Task>, top: nat)

  const EMPTY_TREE: Tree := Tree([], INVALID)

  /** `beginEntry`: a new task numbered by its index, child of the current
      top, becomes the top. */
  function BeginStep(t: Tree, b: Begin): Tree
  {
    Tree(t.tasks + [Task(b, EMPTY_END, |t.tasks|, INVALID, t.top)], |t.tasks|)
  }

  /** `endEntry`: the top task gets its End and the number of tasks so far
      as its end index, and its parent becomes the top. */
  function EndStep(t: Tree, e: End): Tree
    requires t.top < |t.tasks|
  {
    var k := t.top;
    Tree(t.tasks[k := t.tasks[k].(finish := e, idEnd := |t.tasks|)], t.tasks[k].parent)
  }

  /** The tree recorded from an entry stream; None when an End arrives with
      no open task, where `endEntry` indexes past its vector. */
  function Build(events: seq<Event>): Option<Tree>
  {
    if events == [] then Some(EMPTY_TREE)
    else
      match Build(events[..|events| - 1])
      case None => None
      case Some(t) =>
        var e := events[|events| - 1];
        if e.BeginEvent? then Some(BeginStep(t, e.begin))
        else if t.top < |t.tasks| then Some(EndStep(t, e.end))
        else None
  }

  /** Ids are indices, parents come first, and an end index, once set, is
      past the task and within the tasks recorded. */
  predicate Shaped(tasks: seq<Task>)
  {
    |tasks| < INVALID
    && forall i | 0 <= i < |tasks| ::
         tasks[i].id == i
         && (tasks[i].parent == INVALID || tasks[i].parent < i)
         && (tasks[i].idEnd == INVALID || i < tasks[i].idEnd <= |tasks|)
  }

  /** One past the last task of the subtree: all tasks so far while open. */
  function EndOf(tasks: seq<Task>, i: nat): nat
    requires i < |tasks|
  {
    if tasks[i].idEnd == INVALID then |tasks| else tasks[i].idEnd
  }

  /** The open tasks are exactly the top and its ancestors. */
  ghost predicate OpenAreAncestors(tasks: seq<Task>, top: nat)
  {
    var parents := Parents(tasks);
    forall i | 0 <= i < |tasks| :: tasks[i].idEnd == INVALID <==> InSubtree(parents, i, top)
  }

  /** The subtree of task i is exactly the tasks i … EndOf(i) - 1. */
  ghost predicate Descendants(tasks: seq<Task>)
  {
    var parents := Parents(tasks);
    forall i, j | 0 <= i < |tasks| && 0 <= j < |tasks| ::
      InSubtree(parents, i, j) <==> i <= j < EndOf(tasks, i)
  }

  ghost predicate TreeInvariant(t: Tree)
  {
    Shaped(t.tasks) && (t.top == INVALID || t.top < |t.tasks|)
    && OpenAreAncestors(t.tasks, t.top) && Descendants(t.tasks)
  }

  /** The number of open tasks. */
  function OpenCount(tasks: seq<Task>): nat
  {
    if tasks == [] then 0
    else OpenCount(tasks[..|tasks| - 1]) + (if tasks[|tasks| - 1].idEnd == INVALID then 1 else 0)
  }

  lemma OpenCountAppend(tasks: seq<Task>, x: Task)
    ensures OpenCount(tasks + [x]) == OpenCount(tasks) + (if x.idEnd == INVALID then 1 else 0)
  {
    assert (tasks + [x])[..|tasks|] == tasks;
  }

  /** Closing an open task takes one off the count. */
  lemma {:induction false} OpenCountClose(tasks: seq<Task>, k: nat, x: Task)
    requires k < |tasks| && tasks[k].idEnd == INVALID && x.idEnd != INVALID
    ensures OpenCount(tasks[k := x]) == OpenCount(tasks) - 1
  {
    var n := |tasks| - 1;
    if k == n {
      assert tasks[k := x][..n] == tasks[..n];
    } else {
      assert tasks[k := x][..n] == tasks[..n][k := x];
      OpenCountClose(tasks[..n], k, x);
    }
  }

  /** With no open task every task is closed. */
  lemma {:induction false} NoneOpen(tasks: seq<Task>, i: nat)
    requires OpenCount(tasks) == 0 && i < |tasks|
    ensures tasks[i].idEnd != INVALID
  {
    var n := |tasks| - 1;
    if i < n {
      assert tasks[..n][i] == tasks[i];
      NoneOpen(tasks[..n], i);
    }
  }

  lemma ParentsAppend(tasks: seq<Task>, x: Task)
    ensures Parents(tasks + [x]) == Parents(tasks) + [x.parent]
  {
    assert (tasks + [x])[..|tasks|] == tasks;
  }

  lemma ParentsUpdate(tasks: seq<Task>, k: nat, x: Task)
    requires k < |tasks| && x.parent == tasks[k].parent
    ensures Parents(tasks[k := x]) == Parents(tasks)
  {
  }

  /** `beginEntry` keeps the invariant: the new task's subtree is just
      itself, and it lies in exactly the subtrees of the open tasks. */
  lemma BeginKeepsInvariant(t: Tree, b: Begin)
    requires TreeInvariant(t) && |t.tasks| + 1 < INVALID
    ensures TreeInvariant(BeginStep(t, b))
    ensures OpenCount(BeginStep(t, b).tasks) == OpenCount(t.tasks) + 1
  {
    var n := |t.tasks|;
    var x := Task(b, EMPTY_END, n, INVALID, t.top);
    var t' := BeginStep(t, b);
    assert t'.tasks == t.tasks + [x];
    ParentsAppend(t.tasks, x);
    OpenCountAppend(t.tasks, x);
    BeginShaped(t.tasks, x);
    BeginUnderOpen(t, x);
    BeginOpenAreAncestors(t, x);
    BeginDescendants(t, x);
  }

  lemma BeginShaped(tasks: seq<Task>, x: Task)
    requires Shaped(tasks) && |tasks| + 1 < INVALID && x.id == |tasks| && x.idEnd == INVALID
    requires x.parent == INVALID || x.parent < |tasks|
    ensures Shaped(tasks + [x])
  {
    var tasks' := tasks + [x];
    forall i | 0 <= i < |tasks'|
      ensures tasks'[i].id == i
              && (tasks'[i].parent == INVALID || tasks'[i].parent < i)
              && (tasks'[i].idEnd == INVALID || i < tasks'[i].idEnd <= |tasks'|)
    {
      if i < |tasks| {
        assert tasks'[i] == tasks[i];
      }
    }
  }

  /** The new node lies under an old node exactly when that node is open. */
  lemma BeginUnderOpen(t: Tree, x: Task)
    requires TreeInvariant(t) && x.parent == t.top
    ensures var parents' := Parents(t.tasks) + [t.top];
            forall i | 0 <= i < |t.tasks| :: InSubtree(parents', i, |t.tasks|) <==> t.tasks[i].idEnd == INVALID
  {
    var n := |t.tasks|;
    var parents := Parents(t.tasks);
    var parents' := parents + [t.top];
    forall i | 0 <= i < n
      ensures InSubtree(parents', i, n) <==> t.tasks[i].idEnd == INVALID
    {
      if t.top != INVALID {
        SubtreeAppend(parents, t.top, i, t.top);
      }
    }
  }

  lemma BeginOpenAreAncestors(t: Tree, x: Task)
    requires TreeInvariant(t) && x.parent == t.top && x.idEnd == INVALID
    requires Parents(t.tasks + [x]) == Parents(t.tasks) + [t.top]
    requires var parents' := Parents(t.tasks) + [t.top];
             forall i | 0 <= i < |t.tasks| :: InSubtree(parents', i, |t.tasks|) <==> t.tasks[i].idEnd == INVALID
    ensures OpenAreAncestors(t.tasks + [x], |t.tasks|)
  {
    var tasks' := t.tasks + [x];
    forall i | 0 <= i < |tasks'|
      ensures tasks'[i].idEnd == INVALID <==> InSubtree(Parents(tasks'), i, |t.tasks|)
    {
      if i < |t.tasks| {
        assert tasks'[i] == t.tasks[i];
      }
    }
  }

  lemma BeginDescendants(t: Tree, x: Task)
    requires TreeInvariant(t) && x.parent == t.top && x.idEnd == INVALID
    requires Parents(t.tasks + [x]) == Parents(t.tasks) + [t.top]
    requires var parents' := Parents(t.tasks) + [t.top];
             forall i | 0 <= i < |t.tasks| :: InSubtree(parents', i, |t.tasks|) <==> t.tasks[i].idEnd == INVALID
    ensures Descendants(t.tasks + [x])
  {
    var n := |t.tasks|;
    var tasks' := t.tasks + [x];
    var parents := Parents(t.tasks);
    var parents' := parents + [t.top];
    forall i, j | 0 <= i < |tasks'| && 0 <= j < |tasks'|
      ensures InSubtree(parents', i, j) <==> i <= j < EndOf(tasks', i)
    {
      if i < n {
        assert tasks'[i] == t.tasks[i];
        if j < n {
          SubtreeAppend(parents, t.top, i, j);
        }
      } else if j < n && InSubtree(parents', i, j) {
        SubtreeOrdered(parents', i, j);
      }
    }
  }

  /** `endEntry` keeps the invariant: the closed top's subtree ends at the
      current number of tasks, which is where it was already known to end. */
  lemma EndKeepsInvariant(t: Tree, e: End)
    requires TreeInvariant(t) && t.top < |t.tasks|
    ensures TreeInvariant(EndStep(t, e))
    ensures OpenCount(EndStep(t, e).tasks) == OpenCount(t.tasks) - 1
  {
    var k := t.top;
    var x := t.tasks[k].(finish := e, idEnd := |t.tasks|);
    ParentsUpdate(t.tasks, k, x);
    assert InSubtree(Parents(t.tasks), k, k);
    OpenCountClose(t.tasks, k, x);
    EndShaped(t, e);
    EndOpenAreAncestors(t, e);
    EndDescendants(t, e);
  }

  lemma EndShaped(t: Tree, e: End)
    requires TreeInvariant(t) && t.top < |t.tasks|
    ensures Shaped(EndStep(t, e).tasks)
  {
    var tasks' := EndStep(t, e).tasks;
    forall i | 0 <= i < |tasks'|
      ensures tasks'[i].id == i
              && (tasks'[i].parent == INVALID || tasks'[i].parent < i)
              && (tasks'[i].idEnd == INVALID || i < tasks'[i].idEnd <= |tasks'|)
    {
    }
  }

  /** Once the top is closed, the open tasks are its parent and the
      parent's ancestors. */
  lemma EndOpenAreAncestors(t: Tree, e: End)
    requires TreeInvariant(t) && t.top < |t.tasks|
    ensures OpenAreAncestors(EndStep(t, e).tasks, EndStep(t, e).top)
  {
    var k := t.top;
    var t' := EndStep(t, e);
    var parents := Parents(t.tasks);
    ParentsUpdate(t.tasks, k, t'.tasks[k]);
    forall i | 0 <= i < |t.tasks|
      ensures t'.tasks[i].idEnd == INVALID <==> InSubtree(parents, i, t'.top)
    {
      if i != k && InSubtree(parents, i, t'.top) {
        if t'.top != INVALID {
          assert InSubtree(parents, i, k);
        }
      }
    }
  }

  /** An open task's subtree already ran to the end of the tasks, so the
      end index it gets changes no subtree. */
  lemma EndDescendants(t: Tree, e: End)
    requires TreeInvariant(t) && t.top < |t.tasks|
    ensures Descendants(EndStep(t, e).tasks)
  {
    var k := t.top;
    var t' := EndStep(t, e);
    var parents := Parents(t.tasks);
    ParentsUpdate(t.tasks, k, t'.tasks[k]);
    assert InSubtree(parents, k, k);
    forall i, j | 0 <= i < |t.tasks| && 0 <= j < |t.tasks|
      ensures InSubtree(parents, i, j) <==> i <= j < EndOf(t'.tasks, i)
    {
      assert EndOf(t'.tasks, i) == EndOf(t.tasks, i);
    }
  }

  /** Every stream whose Ends each close an open Begin builds a tree that
      keeps the invariant, with one open task per unclosed Begin. */
  lemma {:induction false} BuildInvariant(events: seq<Event>)
    requires forall k | 0 <= k <= |events| :: Depth(events[..k]) >= 0
    requires |events| + 1 < INVALID
    ensures Build(events).Some? && TreeInvariant(Build(events).value)
    ensures |Build(events).value.tasks| <= |events|
    ensures OpenCount(Build(events).value.tasks) == Depth(events)
  {
    if events == [] {
      assert Build(events) == Some(EMPTY_TREE);
    } else {
      var front := events[..|events| - 1];
      var e := events[|events| - 1];
      assert forall k | 0 <= k <= |front| :: front[..k] == events[..k];
      assert events[..|events|] == events == front + [e];
      BuildInvariant(front);
      BuildInvariantStep(front, e, Build(front).value);
    }
  }

  /** The inductive step of `BuildInvariant`: one more entry. */
  lemma BuildInvariantStep(front: seq<Event>, e: Event, t: Tree)
    requires Build(front) == Some(t) && TreeInvariant(t)
    requires |t.tasks| <= |front| && OpenCount(t.tasks) == Depth(front)
    requires Depth(front + [e]) >= 0 && |front| + 2 < INVALID
    ensures Build(front + [e]).Some? && TreeInvariant(Build(front + [e]).value)
    ensures |Build(front + [e]).value.tasks| <= |front| + 1
    ensures OpenCount(Build(front + [e]).value.tasks) == Depth(front + [e])
  {
    DepthAppend(front, e);
    if e.BeginEvent? {
      BeginKeepsInvariant(t, e.begin);
    } else {
      TopIsOpen(t);
      EndKeepsInvariant(t, e.end);
    }
    BuildAppend(front, e, t);
  }

  /** With an open task somewhere, the top is a task. */
  lemma TopIsOpen(t: Tree)
    requires TreeInvariant(t) && OpenCount(t.tasks) >= 1
    ensures t.top < |t.tasks|
  {
    if t.top == INVALID {
      forall i | 0 <= i < |t.tasks|
        ensures t.tasks[i].idEnd != INVALID
      {
        assert !InSubtree(Parents(t.tasks), i, t.top);
      }
      AllClosedCount(t.tasks);
    }
  }

  lemma {:induction false} AllClosedCount(tasks: seq<Task>)
    requires forall i | 0 <= i < |tasks| :: tasks[i].idEnd != INVALID
    ensures OpenCount(tasks) == 0
  {
    if tasks != [] {
      AllClosedCount(tasks[..|tasks| - 1]);
    }
  }

  lemma {:induction false} DepthAppend(events: seq<Event>, e: Event)
    ensures Depth(events + [e]) == Depth(events) + (if e.BeginEvent? then 1 else -1)
  {
    if events == [] {
      assert [] + [e] == [e];
      assert Depth([e]) == (if e.BeginEvent? then 1 else -1) + Depth([]);
    } else {
      assert (events + [e])[1..] == events[1..] + [e];
      DepthAppend(events[1..], e);
    }
  }

  /** A well-nested stream leaves every task closed and no top; each task's
      parent precedes it and its descendants are exactly the tasks after it
      up to its end index. */
  lemma WellNestedTree(events: seq<Event>)
    requires WellNested(events) && |events| + 1 < INVALID
    ensures Build(events).Some?
    ensures var t := Build(events).value;
            t.top == INVALID
            && forall i | 0 <= i < |t.tasks| ::
                 t.tasks[i].id == i && i < t.tasks[i].idEnd <= |t.tasks|
                 && (t.tasks[i].parent == INVALID || t.tasks[i].parent < i)
                 && forall j | 0 <= j < |t.tasks| ::
                      InSubtree(Parents(t.tasks), i, j) <==> i <= j < t.tasks[i].idEnd
  {
    BuildInvariant(events);
    var t := Build(events).value;
    forall i | 0 <= i < |t.tasks|
      ensures t.tasks[i].idEnd != INVALID
    {
      NoneOpen(t.tasks, i);
    }
  }

  /** Build, one entry at a time. */
  lemma BuildAppend(events: seq<Event>, e: Event, t: Tree)
    requires Build(events) == Some(t)
    ensures e.BeginEvent? ==> Build(events + [e]) == Some(BeginStep(t, e.begin))
    ensures e.EndEvent? && t.top < |t.tasks| ==> Build(events + [e]) == Some(EndStep(t, e.end))
  {
    assert (events + [e])[..|events|] == events;
  }

  /** Begin(A): A is the only task and the top. */
  lemma OneOpenPrefix(a: Begin)
    ensures Build([BeginEvent(a)]) == Some(Tree([Task(a, EMPTY_END, 0, INVALID, INVALID)], 0))
  {
    var ta := Task(a, EMPTY_END, 0, INVALID, INVALID);
    BuildAppend([], BeginEvent(a), EMPTY_TREE);
    assert [] + [BeginEvent(a)] == [BeginEvent(a)] && [] + [ta] == [ta];
  }

  /** Begin(A) Begin(B): B is the top, under A. */
  lemma TwoOpenPrefix(a: Begin, b: Begin)
    ensures Build([BeginEvent(a), BeginEvent(b)])
            == Some(Tree([Task(a, EMPTY_END, 0, INVALID, INVALID), Task(b, EMPTY_END, 1, INVALID, 0)], 1))
  {
    var ta := Task(a, EMPTY_END, 0, INVALID, INVALID);
    var tb := Task(b, EMPTY_END, 1, INVALID, 0);
    OneOpenPrefix(a);
    BuildAppend([BeginEvent(a)], BeginEvent(b), Tree([ta], 0));
    assert [BeginEvent(a)] + [BeginEvent(b)] == [BeginEvent(a), BeginEvent(b)];
    assert [ta] + [tb] == [ta, tb];
  }

  /** Begin(A) Begin(B) End: B is closed at index 2, A is the top again. */
  lemma TwoNodePrefix(a: Begin, b: Begin, eb: End)
    ensures Build([BeginEvent(a), BeginEvent(b), EndEvent(eb)])
            == Some(Tree([Task(a, EMPTY_END, 0, INVALID, INVALID), Task(b, eb, 1, 2, 0)], 0))
  {
    var ta := Task(a, EMPTY_END, 0, INVALID, INVALID);
    var tb := Task(b, EMPTY_END, 1, INVALID, 0);
    TwoOpenPrefix(a, b);
    BuildAppend([BeginEvent(a), BeginEvent(b)], EndEvent(eb), Tree([ta, tb], 1));
    assert [BeginEvent(a), BeginEvent(b)] + [EndEvent(eb)] == [BeginEvent(a), BeginEvent(b), EndEvent(eb)];
    assert [ta, tb][1 := tb.(finish := eb, idEnd := 2)] == [ta, Task(b, eb, 1, 2, 0)];
  }

  /** Begin(A) Begin(B) End Begin(C) End End: A is the root, B and C are its
      children, and B's subtree ends before C. */
  lemma ThreeNodeExample(a: Begin, b: Begin, c: Begin, eb: End, ec: End, ea: End)
    ensures var events := [BeginEvent(a), BeginEvent(b), EndEvent(eb), BeginEvent(c), EndEvent(ec), EndEvent(ea)];
            Build(events) == Some(Tree([Task(a, ea, 0, 3, INVALID), Task(b, eb, 1, 2, 0), Task(c, ec, 2, 3, 0)], INVALID))
  {
    var ta := Task(a, EMPTY_END, 0, INVALID, INVALID);
    var tb' := Task(b, eb, 1, 2, 0);
    var tc := Task(c, EMPTY_END, 2, INVALID, 0);
    var tc' := tc.(finish := ec, idEnd := 3);
    var e3 := [BeginEvent(a), BeginEvent(b), EndEvent(eb)];
    var e4 := e3 + [BeginEvent(c)];
    var e5 := e4 + [EndEvent(ec)];
    assert Build(e4) == Some(Tree([ta, tb', tc], 2)) by {
      TwoNodePrefix(a, b, eb);
      BuildAppend(e3, BeginEvent(c), Tree([ta, tb'], 0));
      assert [ta, tb'] + [tc] == [ta, tb', tc];
    }
    assert Build(e5) == Some(Tree([ta, tb', tc'], 0)) by {
      BuildAppend(e4, EndEvent(ec), Tree([ta, tb', tc], 2));
      assert [ta, tb', tc][2 := tc'] == [ta, tb', tc'];
    }
    assert Build(e5 + [EndEvent(ea)]) == Some(Tree([Task(a, ea, 0, 3, INVALID), tb', Task(c, ec, 2, 3, 0)], INVALID)) by {
      BuildAppend(e5, EndEvent(ea), Tree([ta, tb', tc'], 0));
      assert [ta, tb', tc'][0 := ta.(finish := ea, idEnd := 3)]
          == [Task(a, ea, 0, 3, INVALID), tb', Task(c, ec, 2, 3, 0)];
    }
    assert e5 + [EndEvent(ea)] == [BeginEvent(a), BeginEvent(b), EndEvent(eb), BeginEvent(c), EndEvent(ec), EndEvent(ea)];
  }

  // ---------------------------------------------------------------------
  // The recorder and the tree writer

  /** Subtrees nest: a task that starts inside a closed subtree ends inside
      it too. */
  predicate Laminar(ends: seq<nat>)
  {
    forall k, t | 0 <= k < t < |ends| && t < ends[k] :: ends[t] <= ends[k]
  }

  /** The recorded tree's end indices nest, and each lies past its task. */
  lemma TreeLaminar(t: Tree)
    requires TreeInvariant(t)
    ensures Laminar(Ends(t.tasks))
    ensures forall k | 0 <= k < |t.tasks| :: k < t.tasks[k].idEnd
  {
    var ends := Ends(t.tasks);
    var parents := Parents(t.tasks);
    forall k, j | 0 <= k < j < |ends| && j < ends[k]
      ensures ends[j] <= ends[k]
    {
      if ends[k] != INVALID {
        assert InSubtree(parents, k, j);
        if ends[j] == INVALID {
          // j is open, so it is an ancestor of the top, and so is k.
          assert InSubtree(parents, j, t.top);
          SubtreeTransitive(parents, k, j, t.top);
          assert false;
        } else {
          var last := ends[j] - 1;
          assert InSubtree(parents, j, last);
          SubtreeTransitive(parents, k, j, last);
        }
      }
    }
  }

  /** `RecordedDFSEntryTree`. */
  class EntryTree {
    var tasks: seq<Task>
    var curTop: nat

    ghost predicate Valid()
      reads this
    {
      TreeInvariant(Tree(tasks, curTop))
    }

    constructor()
      ensures tasks == [] && curTop == INVALID && Valid()
    {
      tasks := [];
      curTop := INVALID;
    }

    /** `beginEntry`. */
    method BeginEntry(b: Begin)
      requires Valid() && |tasks| + 1 < INVALID
      modifies this
      ensures Tree(tasks, curTop) == BeginStep(old(Tree(tasks, curTop)), b) && Valid()
    {
      BeginKeepsInvariant(Tree(tasks, curTop), b);
      tasks := tasks + [Task(b, EMPTY_END, |tasks|, INVALID, if curTop == INVALID then INVALID else curTop)];
      curTop := |tasks| - 1;
    }

    /** `endEntry`: there must be an open task. */
    method EndEntry(e: End)
      requires Valid() && curTop < |tasks|
      modifies this
      ensures Tree(tasks, curTop) == EndStep(old(Tree(tasks, curTop)), e) && Valid()
    {
      EndKeepsInvariant(Tree(tasks, curTop), e);
      tasks := tasks[curTop := tasks[curTop].(finish := e)];
      tasks := tasks[curTop := tasks[curTop].(idEnd := |tasks|)];
      if tasks[curTop].parent == INVALID {
        curTop := INVALID;
      } else {
        curTop := tasks[curTop].parent;
      }
    }
  }

  /** The hooks `finalize` drives, in the order it calls them. */
  datatype TreeCall = InitTree(sourceName: string) | OpenNode(node: nat) | CloseNode(node: nat) | FinishTree

  /** The stack of open nodes after a run of calls; None when a close does
      not match the innermost open node. */
  function ReplayStep(stack: Option<seq<nat>>, c: TreeCall): Option<seq<nat>>
  {
    match stack
    case None => None
    case Some(st) =>
      match c
      case OpenNode(i) => Some(st + [i])
      case CloseNode(i) => if st != [] && st[|st| - 1] == i then Some(st[..|st| - 1]) else None
      case _ => None
  }

  function Replay(calls: seq<TreeCall>): Option<seq<nat>>
  {
    if calls == [] then Some([]) else ReplayStep(Replay(calls[..|calls| - 1]), calls[|calls| - 1])
  }

  lemma ReplayAppend(calls: seq<TreeCall>, c: TreeCall)
    ensures Replay(calls + [c]) == ReplayStep(Replay(calls), c)
  {
    assert (calls + [c])[..|calls|] == calls;
  }

  /** The nodes opened, in order. */
  function Opened(calls: seq<TreeCall>): seq<nat>
  {
    if calls == [] then []
    else Opened(calls[..|calls| - 1]) + (if calls[|calls| - 1].OpenNode? then [calls[|calls| - 1].node] else [])
  }

  lemma OpenedAppend(calls: seq<TreeCall>, c: TreeCall)
    ensures Opened(calls + [c]) == Opened(calls) + (if c.OpenNode? then [c.node] else [])
  {
    assert (calls + [c])[..|calls|] == calls;
  }

  function Iota(n: nat): (r: seq<nat>)
    ensures |r| == n
  {
    if n == 0 then [] else Iota(n - 1) + [n - 1]
  }

  lemma {:induction false} IotaAt(n: nat, k: nat)
    requires k < n
    ensures Iota(n)[k] == k
  {
    if k < n - 1 {
      IotaAt(n - 1, k);
    }
  }

  predicate Increasing(s: seq<nat>)
  {
    forall a, b | 0 <= a < b < |s| :: s[a] < s[b]
  }

  lemma IncreasingAppend(s: seq<nat>, x: nat)
    requires Increasing(s) && forall a | 0 <= a < |s| :: s[a] < x
    ensures Increasing(s + [x])
  {
  }

  /** When node j opens, the nodes still open are exactly the k < j whose
      subtree reaches past j. */
  ghost predicate EnclosingAtOpen(before: seq<TreeCall>, j: nat, ends: seq<nat>)
  {
    Replay(before).Some? && forall k | 0 <= k < |ends| :: k in Replay(before).value <==> k < j < ends[k]
  }

  /** `EnclosingAtOpen` at every open call, call by call. */
  ghost predicate EnclosingAtOpens(out: seq<TreeCall>, ends: seq<nat>)
  {
    out == []
    || (EnclosingAtOpens(out[..|out| - 1], ends)
        && (out[|out| - 1].OpenNode? ==> EnclosingAtOpen(out[..|out| - 1], out[|out| - 1].node, ends)))
  }

  lemma EnclosingAtOpensAppend(out: seq<TreeCall>, c: TreeCall, ends: seq<nat>)
    ensures EnclosingAtOpens(out + [c], ends)
            <==> EnclosingAtOpens(out, ends) && (c.OpenNode? ==> EnclosingAtOpen(out, c.node, ends))
  {
    assert (out + [c])[..|out|] == out;
  }

  /** The call-by-call form, restated position by position. */
  lemma {:induction false} EnclosingAtEveryOpen(out: seq<TreeCall>, ends: seq<nat>)
    requires EnclosingAtOpens(out, ends)
    ensures forall m | 0 <= m < |out| && out[m].OpenNode? :: EnclosingAtOpen(out[..m], out[m].node, ends)
  {
    if out != [] {
      var front := out[..|out| - 1];
      EnclosingAtEveryOpen(front, ends);
      forall m | 0 <= m < |out| && out[m].OpenNode?
        ensures EnclosingAtOpen(out[..m], out[m].node, ends)
      {
        if m < |front| {
          assert out[..m] == front[..m] && out[m] == front[m];
        }
      }
    }
  }

  /** With nesting subtrees, once the innermost open node reaches past i so
      does every node below it on the stack. */
  lemma StackReachesPast(stack: seq<nat>, ends: seq<nat>, i: nat)
    requires Laminar(ends) && Increasing(stack)
    requires forall a | 0 <= a < |stack| :: stack[a] < i && stack[a] < |ends| && i <= ends[stack[a]]
    requires stack != [] ==> i < ends[stack[|stack| - 1]]
    ensures forall a | 0 <= a < |stack| :: i < ends[stack[a]]
  {
    forall a | 0 <= a < |stack|
      ensures i < ends[stack[a]]
    {
      var top := stack[|stack| - 1];
      if a < |stack| - 1 {
        assert stack[a] < top < ends[stack[a]];
      }
    }
  }

  /** The walk's state before node i opens, once the finished subtrees
      have been closed (`popped`); before that (`!popped`) every node whose
      subtree reaches i is still open as well. */
  ghost predicate Walk(out: seq<TreeCall>, openSet: seq<nat>, ends: seq<nat>, i: nat, popped: bool)
    decreases !popped
  {
    if popped then
      Replay(out) == Some(openSet) && Increasing(openSet) && i <= |ends|
      && (forall a | 0 <= a < |openSet| :: openSet[a] < i && i <= ends[openSet[a]])
      && (forall k | 0 <= k < |ends| :: k < i < ends[k] ==> k in openSet)
      && Opened(out) == Iota(i)
      && EnclosingAtOpens(out, ends)
    else
      Walk(out, openSet, ends, i, true) && forall k | 0 <= k < |ends| :: k < i <= ends[k] ==> k in openSet
  }

  /** Closing the innermost open node keeps the walk's state. */
  lemma CloseStep(out: seq<TreeCall>, openSet: seq<nat>, ends: seq<nat>, i: nat)
    requires Walk(out, openSet, ends, i, true) && openSet != []
    requires i >= ends[openSet[|openSet| - 1]]
    ensures Walk(out + [CloseNode(openSet[|openSet| - 1])], openSet[..|openSet| - 1], ends, i, true)
  {
    var top := openSet[|openSet| - 1];
    ReplayAppend(out, CloseNode(top));
    OpenedAppend(out, CloseNode(top));
    EnclosingAtOpensAppend(out, CloseNode(top), ends);
    var rest := openSet[..|openSet| - 1];
    forall k | 0 <= k < |ends| && k < i < ends[k]
      ensures k in rest
    {
      assert k in openSet;
      assert k != top;
    }
  }

  /** After the last node has opened the remaining nodes are closed
      innermost first. */
  ghost predicate Drain(out: seq<TreeCall>, openSet: seq<nat>, ends: seq<nat>)
  {
    Replay(out) == Some(openSet) && Opened(out) == Iota(|ends|) && EnclosingAtOpens(out, ends)
  }

  lemma DrainStep(out: seq<TreeCall>, openSet: seq<nat>, ends: seq<nat>)
    requires Drain(out, openSet, ends) && openSet != []
    ensures Drain(out + [CloseNode(openSet[|openSet| - 1])], openSet[..|openSet| - 1], ends)
  {
    var top := openSet[|openSet| - 1];
    ReplayAppend(out, CloseNode(top));
    OpenedAppend(out, CloseNode(top));
    EnclosingAtOpensAppend(out, CloseNode(top), ends);
  }

  lemma WalkDone(out: seq<TreeCall>, openSet: seq<nat>, ends: seq<nat>)
    requires Walk(out, openSet, ends, |ends|, false)
    ensures Drain(out, openSet, ends)
  {
  }

  /** Once the finished subtrees are closed, the open nodes are exactly
      those that started before i and whose subtree reaches past i. */
  lemma OpenAtI(openSet: seq<nat>, ends: seq<nat>, i: nat)
    requires Laminar(ends) && Increasing(openSet) && i <= |ends|
    requires forall a | 0 <= a < |openSet| :: openSet[a] < i && i <= ends[openSet[a]]
    requires forall k | 0 <= k < |ends| :: k < i < ends[k] ==> k in openSet
    requires openSet != [] ==> i < ends[openSet[|openSet| - 1]]
    ensures forall a | 0 <= a < |openSet| :: i < ends[openSet[a]]
    ensures forall k | 0 <= k < |ends| :: k in openSet <==> k < i < ends[k]
  {
    StackReachesPast(openSet, ends, i);
    forall k | 0 <= k < |ends| && k in openSet
      ensures k < i < ends[k]
    {
      var a :| 0 <= a < |openSet| && openSet[a] == k;
    }
  }

  /** Once the finished subtrees are closed, opening node i keeps the
      walk's state for i + 1. */
  lemma OpenStep(out: seq<TreeCall>, openSet: seq<nat>, ends: seq<nat>, i: nat)
    requires Walk(out, openSet, ends, i, true) && Laminar(ends) && i < |ends| && i < ends[i]
    requires openSet != [] ==> i < ends[openSet[|openSet| - 1]]
    ensures Walk(out + [OpenNode(i)], openSet + [i], ends, i + 1, false)
  {
    OpenAtI(openSet, ends, i);
    OpenStepCalls(out, openSet, ends, i);
    OpenStepStack(openSet, ends, i);
    assert Walk(out + [OpenNode(i)], openSet + [i], ends, i + 1, true);
  }

  /** The calls after opening node i: the stack gains i, i is the next node
      opened, and the nodes open when it opens are those enclosing it. */
  lemma OpenStepCalls(out: seq<TreeCall>, openSet: seq<nat>, ends: seq<nat>, i: nat)
    requires Replay(out) == Some(openSet) && Opened(out) == Iota(i) && EnclosingAtOpens(out, ends)
    requires forall k | 0 <= k < |ends| :: k in openSet <==> k < i < ends[k]
    ensures Replay(out + [OpenNode(i)]) == Some(openSet + [i])
    ensures Opened(out + [OpenNode(i)]) == Iota(i + 1)
    ensures EnclosingAtOpens(out + [OpenNode(i)], ends)
  {
    ReplayAppend(out, OpenNode(i));
    OpenedAppend(out, OpenNode(i));
    EnclosingAtOpensAppend(out, OpenNode(i), ends);
    assert EnclosingAtOpen(out, i, ends);
  }

  /** The stack after pushing node i: still increasing, every node on it
      started before i + 1 and reaches it, and it holds every node that
      started before i + 1 and reaches it. */
  lemma OpenStepStack(openSet: seq<nat>, ends: seq<nat>, i: nat)
    requires Increasing(openSet) && i < |ends| && i < ends[i]
    requires forall a | 0 <= a < |openSet| :: openSet[a] < i && i < ends[openSet[a]]
    requires forall k | 0 <= k < |ends| :: k in openSet <==> k < i < ends[k]
    ensures Increasing(openSet + [i])
    ensures forall a | 0 <= a < |openSet| + 1 :: (openSet + [i])[a] < i + 1 && i + 1 <= ends[(openSet + [i])[a]]
    ensures forall k | 0 <= k < |ends| :: k < i + 1 <= ends[k] ==> k in openSet + [i]
  {
    var openSet' := openSet + [i];
    IncreasingAppend(openSet, i);
    forall k | 0 <= k < |ends| && k < i + 1 <= ends[k]
      ensures k in openSet'
    {
      if k < i {
        assert k in openSet;
      } else {
        assert openSet'[|openSet|] == k;
      }
    }
  }

  /** The loop of `finalize`: every node is opened once, in index order;
      before node i opens, the open nodes whose subtree ends at or before i
      are closed innermost first, and the rest are closed at the end. The
      calls are well bracketed, and when node j opens the nodes still open
      are exactly those whose subtree reaches past j: a node is closed
      before j opens if and only if j >= its end index. */
  method WalkTasks(tasks: seq<Task>) returns (out: seq<TreeCall>)
    requires Laminar(Ends(tasks)) && forall k | 0 <= k < |tasks| :: k < tasks[k].idEnd
    ensures Replay(out) == Some([]) && Opened(out) == Iota(|tasks|)
    ensures EnclosingAtOpens(out, Ends(tasks))
  {
    var openSet: seq<nat> := [];
    out := [];
    var i := 0;
    WalkStart(Ends(tasks));
    while i < |tasks|
      invariant i <= |tasks| && Walk(out, openSet, Ends(tasks), i, false)
    {
      out, openSet := OpenNext(tasks, out, openSet, i);
      i := i + 1;
    }
    WalkDone(out, openSet, Ends(tasks));
    out := CloseRemaining(tasks, out, openSet);
  }

  lemma WalkStart(ends: seq<nat>)
    ensures Walk([], [], ends, 0, false)
  {
  }

  /** One round of the walk: close the finished subtrees, then open node i. */
  method OpenNext(tasks: seq<Task>, out: seq<TreeCall>, openSet: seq<nat>, i: nat)
      returns (out': seq<TreeCall>, openSet': seq<nat>)
    requires Laminar(Ends(tasks)) && forall k | 0 <= k < |tasks| :: k < tasks[k].idEnd
    requires i < |tasks| && Walk(out, openSet, Ends(tasks), i, false)
    ensures Walk(out', openSet', Ends(tasks), i + 1, false)
  {
    out', openSet' := CloseFinished(tasks, out, openSet, i);
    OpenStep(out', openSet', Ends(tasks), i);
    out' := out' + [OpenNode(i)];
    openSet' := openSet' + [i];
  }

  /** After the last node has opened: close what is still open, innermost
      first. */
  method CloseRemaining(tasks: seq<Task>, out: seq<TreeCall>, openSet: seq<nat>) returns (out': seq<TreeCall>)
    requires Drain(out, openSet, Ends(tasks))
    ensures Drain(out', [], Ends(tasks))
  {
    out' := out;
    var rest := openSet;
    while rest != []
      invariant Drain(out', rest, Ends(tasks))
      decreases |rest|
    {
      var top := rest[|rest| - 1];
      DrainStep(out', rest, Ends(tasks));
      out' := out' + [CloseNode(top)];
      rest := rest[..|rest| - 1];
    }
  }

  /** The inner loop of `finalize`: close the open nodes whose subtree ends
      at or before node i, innermost first. */
  method CloseFinished(tasks: seq<Task>, out: seq<TreeCall>, openSet: seq<nat>, i: nat)
      returns (out': seq<TreeCall>, openSet': seq<nat>)
    requires Walk(out, openSet, Ends(tasks), i, false)
    ensures Walk(out', openSet', Ends(tasks), i, true)
    ensures openSet' != [] ==> i < tasks[openSet'[|openSet'| - 1]].idEnd
  {
    ghost var ends := Ends(tasks);
    out', openSet' := out, openSet;
    while openSet' != [] && i >= tasks[openSet'[|openSet'| - 1]].idEnd
      invariant Walk(out', openSet', ends, i, true)
      decreases |openSet'|
    {
      var top := openSet'[|openSet'| - 1];
      CloseStep(out', openSet', ends, i);
      out' := out' + [CloseNode(top)];
      openSet' := openSet'[..|openSet'| - 1];
    }
  }

  /** `TemplightTreeWriter`: it records the entries into its tree and, at
      `finalize`, opens every node in index order and closes each one when
      the walk leaves its subtree. */
  class TreeWriter {
    const tree: EntryTree
    var calls: seq<TreeCall>

    ghost predicate Valid()
      reads this, tree
    {
      tree.Valid()
    }

    constructor()
      ensures Valid() && fresh(tree) && tree.tasks == [] && calls == []
    {
      tree := new EntryTree();
      calls := [];
    }

    /** `initialize`. */
    method Initialize(sourceName: string)
      modifies this
      ensures calls == old(calls) + [InitTree(sourceName)]
    {
      calls := calls + [InitTree(sourceName)];
    }

    /** `printEntry` for a Begin. */
    method PrintBegin(b: Begin)
      requires Valid() && |tree.tasks| + 1 < INVALID
      modifies tree
      ensures Valid() && Tree(tree.tasks, tree.curTop) == BeginStep(old(Tree(tree.tasks, tree.curTop)), b)
    {
      tree.BeginEntry(b);
    }

    /** `printEntry` for an End. */
    method PrintEnd(e: End)
      requires Valid() && tree.curTop < |tree.tasks|
      modifies tree
      ensures Valid() && Tree(tree.tasks, tree.curTop) == EndStep(old(Tree(tree.tasks, tree.curTop)), e)
    {
      tree.EndEntry(e);
    }

    /** `finalize`: the walk's open and close calls, then the end of the
        tree. */
    method Finalize()
      requires Valid()
      modifies this
      ensures |calls| > |old(calls)| && calls[..|old(calls)|] == old(calls) && calls[|calls| - 1] == FinishTree
      ensures var out := calls[|old(calls)|..|calls| - 1];
              Replay(out) == Some([]) && Opened(out) == Iota(|tree.tasks|)
              && forall m | 0 <= m < |out| && out[m].OpenNode? :: EnclosingAtOpen(out[..m], out[m].node, Ends(tree.tasks))
    {
      TreeLaminar(Tree(tree.tasks, tree.curTop));
      var out := WalkTasks(tree.tasks);
      EnclosingAtEveryOpen(out, Ends(tree.tasks));
      calls := calls + out + [FinishTree];
      assert calls[|old(calls)|..|calls| - 1] == out;
    }
  }

  // ---------------------------------------------------------------------
  // The GraphML and Graphviz writers

  /** The parent links of the tasks, in task order: (parent, node) for
      every task that has a parent. */
  function ParentLinks(tasks: seq<Task>): (r: seq<(nat, nat)>)
    ensures |r| <= |tasks|
  {
    if tasks == [] then []
    else
      var t := tasks[|tasks| - 1];
      ParentLinks(tasks[..|tasks| - 1]) + (if t.parent == INVALID then [] else [(t.parent, t.id)])
  }

  /** Ids are indices and parents come first. */
  predicate ParentsFirst(tasks: seq<Task>)
  {
    forall i | 0 <= i < |tasks| :: tasks[i].id == i && (tasks[i].parent == INVALID || tasks[i].parent < i)
  }

  lemma ParentLinksFront(tasks: seq<Task>)
    requires tasks != [] && ParentsFirst(tasks)
    ensures ParentsFirst(tasks[..|tasks| - 1])
    ensures var t := tasks[|tasks| - 1];
            ParentLinks(tasks) == ParentLinks(tasks[..|tasks| - 1]) + (if t.parent == INVALID then [] else [(t.parent, |tasks| - 1)])
  {
    var front := tasks[..|tasks| - 1];
    assert forall i | 0 <= i < |front| :: front[i] == tasks[i];
  }

  /** When ids are indices and parents come first, each link goes from an
      earlier task to a later one, its target's parent... */
  lemma {:induction false} ParentLinksForward(tasks: seq<Task>)
    requires ParentsFirst(tasks)
    ensures var links := ParentLinks(tasks);
            forall k | 0 <= k < |links| :: links[k].0 < links[k].1 < |tasks| && tasks[links[k].1].parent == links[k].0
  {
    if tasks != [] {
      var n := |tasks| - 1;
      ParentLinksFront(tasks);
      ParentLinksForward(tasks[..n]);
      assert forall i | 0 <= i < n :: tasks[..n][i] == tasks[i];
    }
  }

  /** ... links come in increasing target order, so no task is the target
      of two links... */
  lemma {:induction false} ParentLinksIncreasing(tasks: seq<Task>)
    requires ParentsFirst(tasks)
    ensures var links := ParentLinks(tasks);
            forall k, m | 0 <= k < m < |links| :: links[k].1 < links[m].1
  {
    if tasks != [] {
      var n := |tasks| - 1;
      ParentLinksFront(tasks);
      ParentLinksIncreasing(tasks[..n]);
      ParentLinksForward(tasks[..n]);
    }
  }

  /** ... and every task with a parent is the target of the link from its
      parent. */
  lemma {:induction false} ParentLinksComplete(tasks: seq<Task>)
    requires ParentsFirst(tasks)
    ensures forall i | 0 <= i < |tasks| && tasks[i].parent != INVALID :: (tasks[i].parent, i) in ParentLinks(tasks)
  {
    if tasks != [] {
      var n := |tasks| - 1;
      ParentLinksFront(tasks);
      ParentLinksComplete(tasks[..n]);
      var fl := ParentLinks(tasks[..n]);
      forall i | 0 <= i < |tasks| && tasks[i].parent != INVALID
        ensures (tasks[i].parent, i) in ParentLinks(tasks)
      {
        if i < n {
          assert tasks[..n][i] == tasks[i];
          assert (tasks[i].parent, i) in fl;
        }
      }
    }
  }

  /** A record a graph writer emits: a node with its entries, or an edge
      from a parent to a child. GraphML numbers its edges; Graphviz does
      not (edgeId is then 0). */
  datatype GraphItem = GraphNode(id: nat, start: Begin, finish: End) | GraphEdge(edgeId: nat, source: nat, target: nat)

  /** The records written so far and the GraphML edge counter. */
  datatype GraphState = GraphState(items: seq<GraphItem>, lastEdgeId: nat)

  /** GraphML `openPrintedTreeNode`: the node, then, for a task with a
      parent, an edge numbered by the counter, which moves on. */
  function GraphMLOpen(s: GraphState, t: Task): GraphState
  {
    var items := s.items + [GraphNode(t.id, t.start, t.finish)];
    if t.parent == INVALID then GraphState(items, s.lastEdgeId)
    else GraphState(items + [GraphEdge(s.lastEdgeId, t.parent, t.id)], s.lastEdgeId + 1)
  }

  /** Graphviz `openPrintedTreeNode`: the node, then the edge from its
      parent. */
  function GraphvizOpen(items: seq<GraphItem>, t: Task): seq<GraphItem>
  {
    var items' := items + [GraphNode(t.id, t.start, t.finish)];
    if t.parent == INVALID then items' else items' + [GraphEdge(0, t.parent, t.id)]
  }

  /** The GraphML records after the nodes of `order` are opened. */
  function GraphMLOf(s: GraphState, tasks: seq<Task>, order: seq<nat>): GraphState
  {
    if order == [] then s
    else
      var s' := GraphMLOf(s, tasks, order[..|order| - 1]);
      var j := order[|order| - 1];
      if j < |tasks| then GraphMLOpen(s', tasks[j]) else s'
  }

  function GraphvizOf(items: seq<GraphItem>, tasks: seq<Task>, order: seq<nat>): seq<GraphItem>
  {
    if order == [] then items
    else
      var items' := GraphvizOf(items, tasks, order[..|order| - 1]);
      var j := order[|order| - 1];
      if j < |tasks| then GraphvizOpen(items', tasks[j]) else items'
  }

  /** The edges among the records, in order. */
  function Edges(items: seq<GraphItem>): seq<GraphItem>
  {
    if items == [] then []
    else Edges(items[..|items| - 1]) + (if items[|items| - 1].GraphEdge? then [items[|items| - 1]] else [])
  }

  /** The node ids among the records, in order. */
  function NodeIds(items: seq<GraphItem>): seq<nat>
  {
    if items == [] then []
    else NodeIds(items[..|items| - 1]) + (if items[|items| - 1].GraphNode? then [items[|items| - 1].id] else [])
  }

  lemma EdgesAppend(a: seq<GraphItem>, b: seq<GraphItem>)
    ensures Edges(a + b) == Edges(a) + Edges(b)
    ensures NodeIds(a + b) == NodeIds(a) + NodeIds(b)
    decreases |b|
  {
    if b == [] {
      assert a + b == a;
    } else {
      var n := |b| - 1;
      assert (a + b)[..|a + b| - 1] == a + b[..n];
      EdgesAppend(a, b[..n]);
    }
  }

  /** The GraphML edges of the links, numbered on from `first`: link k
      becomes edge `first + k`. */
  function Numbered(links: seq<(nat, nat)>, first: nat): (r: seq<GraphItem>)
    ensures |r| == |links|
  {
    if links == [] then []
    else Numbered(links[..|links| - 1], first) + [GraphEdge(first + |links| - 1, links[|links| - 1].0, links[|links| - 1].1)]
  }

  /** The Graphviz edges of the links, which carry no number. */
  function Arcs(links: seq<(nat, nat)>): (r: seq<GraphItem>)
    ensures |r| == |links|
  {
    if links == [] then [] else Arcs(links[..|links| - 1]) + [GraphEdge(0, links[|links| - 1].0, links[|links| - 1].1)]
  }

  lemma NumberedSnoc(links: seq<(nat, nat)>, first: nat, p: nat, c: nat)
    ensures Numbered(links + [(p, c)], first) == Numbered(links, first) + [GraphEdge(first + |links|, p, c)]
  {
    assert (links + [(p, c)])[..|links|] == links;
  }

  lemma ArcsSnoc(links: seq<(nat, nat)>, p: nat, c: nat)
    ensures Arcs(links + [(p, c)]) == Arcs(links) + [GraphEdge(0, p, c)]
  {
    assert (links + [(p, c)])[..|links|] == links;
  }

  /** The records of one opened node: its node, then its edge if any. */
  lemma GraphMLOpenRecords(s: GraphState, t: Task)
    ensures NodeIds(GraphMLOpen(s, t).items) == NodeIds(s.items) + [t.id]
    ensures Edges(GraphMLOpen(s, t).items)
            == Edges(s.items) + (if t.parent == INVALID then [] else [GraphEdge(s.lastEdgeId, t.parent, t.id)])
    ensures GraphMLOpen(s, t).lastEdgeId == s.lastEdgeId + (if t.parent == INVALID then 0 else 1)
  {
    var node := [GraphNode(t.id, t.start, t.finish)];
    assert node[..0] == [];
    EdgesAppend(s.items, node);
    if t.parent != INVALID {
      var edge := [GraphEdge(s.lastEdgeId, t.parent, t.id)];
      assert edge[..0] == [];
      EdgesAppend(s.items + node, edge);
    }
  }

  lemma GraphvizOpenRecords(items: seq<GraphItem>, t: Task)
    ensures NodeIds(GraphvizOpen(items, t)) == NodeIds(items) + [t.id]
    ensures Edges(GraphvizOpen(items, t))
            == Edges(items) + (if t.parent == INVALID then [] else [GraphEdge(0, t.parent, t.id)])
  {
    var node := [GraphNode(t.id, t.start, t.finish)];
    assert node[..0] == [];
    EdgesAppend(items, node);
    if t.parent != INVALID {
      var edge := [GraphEdge(0, t.parent, t.id)];
      assert edge[..0] == [];
      EdgesAppend(items + node, edge);
    }
  }

  lemma ParentLinksStep(tasks: seq<Task>, n: nat)
    requires 0 < n <= |tasks|
    ensures ParentLinks(tasks[..n]) == ParentLinks(tasks[..n - 1])
              + (if tasks[n - 1].parent == INVALID then [] else [(tasks[n - 1].parent, tasks[n - 1].id)])
  {
    assert tasks[..n][..n - 1] == tasks[..n - 1];
  }

  lemma GraphMLOfIota(s: GraphState, tasks: seq<Task>, n: nat)
    requires 0 < n <= |tasks|
    ensures GraphMLOf(s, tasks, Iota(n)) == GraphMLOpen(GraphMLOf(s, tasks, Iota(n - 1)), tasks[n - 1])
  {
    assert Iota(n)[..n - 1] == Iota(n - 1);
  }

  lemma GraphvizOfIota(items: seq<GraphItem>, tasks: seq<Task>, n: nat)
    requires 0 < n <= |tasks|
    ensures GraphvizOf(items, tasks, Iota(n)) == GraphvizOpen(GraphvizOf(items, tasks, Iota(n - 1)), tasks[n - 1])
  {
    assert Iota(n)[..n - 1] == Iota(n - 1);
  }

  /** Opening the first n tasks in index order, the GraphML writer adds
      exactly one edge per parent link, in the same order and numbered on
      from the counter, and the counter ends up past the last of them. */
  lemma {:induction false} GraphMLEdges(s: GraphState, tasks: seq<Task>, n: nat)
    requires n <= |tasks|
    ensures var r := GraphMLOf(s, tasks, Iota(n));
            Edges(r.items) == Edges(s.items) + Numbered(ParentLinks(tasks[..n]), s.lastEdgeId)
            && r.lastEdgeId == s.lastEdgeId + |ParentLinks(tasks[..n])|
  {
    if n == 0 {
      GraphMLEdgesBase(s, tasks);
    } else {
      GraphMLEdges(s, tasks, n - 1);
      GraphMLEdgesStep(s, tasks, n);
    }
  }

  /** Before any task is opened nothing is added. */
  lemma NoTasksOpened(s: GraphState, items: seq<GraphItem>, tasks: seq<Task>)
    ensures GraphMLOf(s, tasks, Iota(0)) == s && GraphvizOf(items, tasks, Iota(0)) == items
    ensures ParentLinks(tasks[..0]) == [] && Numbered([], s.lastEdgeId) == [] && Arcs([]) == []
    ensures Edges(s.items) + [] == Edges(s.items) && Edges(items) + [] == Edges(items)
  {
    assert tasks[..0] == [];
  }

  lemma GraphMLEdgesBase(s: GraphState, tasks: seq<Task>)
    ensures var r := GraphMLOf(s, tasks, Iota(0));
            Edges(r.items) == Edges(s.items) + Numbered(ParentLinks(tasks[..0]), s.lastEdgeId)
            && r.lastEdgeId == s.lastEdgeId + |ParentLinks(tasks[..0])|
  {
    NoTasksOpened(s, [], tasks);
  }

  lemma GraphMLEdgesStep(s: GraphState, tasks: seq<Task>, n: nat)
    requires 0 < n <= |tasks|
    requires var r := GraphMLOf(s, tasks, Iota(n - 1));
             Edges(r.items) == Edges(s.items) + Numbered(ParentLinks(tasks[..n - 1]), s.lastEdgeId)
             && r.lastEdgeId == s.lastEdgeId + |ParentLinks(tasks[..n - 1])|
    ensures var r := GraphMLOf(s, tasks, Iota(n));
            Edges(r.items) == Edges(s.items) + Numbered(ParentLinks(tasks[..n]), s.lastEdgeId)
            && r.lastEdgeId == s.lastEdgeId + |ParentLinks(tasks[..n])|
  {
    var r' := GraphMLOf(s, tasks, Iota(n - 1));
    GraphMLOfIota(s, tasks, n);
    GraphMLOpenRecords(r', tasks[n - 1]);
    ParentLinksStep(tasks, n);
    if tasks[n - 1].parent == INVALID {
      assert ParentLinks(tasks[..n]) == ParentLinks(tasks[..n - 1]) + [] == ParentLinks(tasks[..n - 1]);
      assert Edges(GraphMLOf(s, tasks, Iota(n)).items) == Edges(r'.items) + [] == Edges(r'.items);
    } else {
      GraphMLChildStep(Edges(s.items), s.lastEdgeId, ParentLinks(tasks[..n - 1]), r', tasks[n - 1]);
    }
  }

  /** Opening a task with a parent: one more link, one more edge. */
  lemma GraphMLChildStep(before: seq<GraphItem>, first: nat, links: seq<(nat, nat)>, r: GraphState, t: Task)
    requires t.parent != INVALID
    requires Edges(r.items) == before + Numbered(links, first) && r.lastEdgeId == first + |links|
    ensures Edges(r.items) + [GraphEdge(r.lastEdgeId, t.parent, t.id)] == before + Numbered(links + [(t.parent, t.id)], first)
  {
    NumberedSnoc(links, first, t.parent, t.id);
    SnocAssoc(before, Numbered(links, first), GraphEdge(r.lastEdgeId, t.parent, t.id));
  }

  /** ... and one node per task, in index order. */
  lemma {:induction false} GraphMLNodes(s: GraphState, tasks: seq<Task>, n: nat)
    requires n <= |tasks| && forall i | 0 <= i < |tasks| :: tasks[i].id == i
    ensures NodeIds(GraphMLOf(s, tasks, Iota(n)).items) == NodeIds(s.items) + Iota(n)
  {
    if n == 0 {
      assert NodeIds(s.items) + [] == NodeIds(s.items);
    } else {
      GraphMLNodes(s, tasks, n - 1);
      GraphMLNodesStep(s, tasks, n);
    }
  }

  lemma GraphMLNodesStep(s: GraphState, tasks: seq<Task>, n: nat)
    requires 0 < n <= |tasks| && tasks[n - 1].id == n - 1
    requires NodeIds(GraphMLOf(s, tasks, Iota(n - 1)).items) == NodeIds(s.items) + Iota(n - 1)
    ensures NodeIds(GraphMLOf(s, tasks, Iota(n)).items) == NodeIds(s.items) + Iota(n)
  {
    var r' := GraphMLOf(s, tasks, Iota(n - 1));
    var before := NodeIds(s.items);
    GraphMLOfIota(s, tasks, n);
    GraphMLOpenRecords(r', tasks[n - 1]);
    assert NodeIds(GraphMLOf(s, tasks, Iota(n)).items) == NodeIds(r'.items) + [n - 1];
    assert Iota(n) == Iota(n - 1) + [n - 1];
    SnocAssoc(before, Iota(n - 1), n - 1);
  }

  /** Opening the first n tasks in index order, the Graphviz writer adds
      exactly the edges of the parent links, in the same order... */
  lemma {:induction false} GraphvizEdges(items: seq<GraphItem>, tasks: seq<Task>, n: nat)
    requires n <= |tasks|
    ensures Edges(GraphvizOf(items, tasks, Iota(n))) == Edges(items) + Arcs(ParentLinks(tasks[..n]))
  {
    if n == 0 {
      NoTasksOpened(GraphState(items, 0), items, tasks);
    } else {
      GraphvizEdges(items, tasks, n - 1);
      GraphvizEdgesStep(items, tasks, n);
    }
  }

  lemma GraphvizEdgesStep(items: seq<GraphItem>, tasks: seq<Task>, n: nat)
    requires 0 < n <= |tasks|
    requires Edges(GraphvizOf(items, tasks, Iota(n - 1))) == Edges(items) + Arcs(ParentLinks(tasks[..n - 1]))
    ensures Edges(GraphvizOf(items, tasks, Iota(n))) == Edges(items) + Arcs(ParentLinks(tasks[..n]))
  {
    var r' := GraphvizOf(items, tasks, Iota(n - 1));
    var t := tasks[n - 1];
    GraphvizOfIota(items, tasks, n);
    GraphvizOpenRecords(r', t);
    ParentLinksStep(tasks, n);
    var links' := ParentLinks(tasks[..n - 1]);
    if t.parent == INVALID {
      assert links' + [] == links';
      assert Edges(r') + [] == Edges(r');
    } else {
      ArcsSnoc(links', t.parent, t.id);
      SnocAssoc(Edges(items), Arcs(links'), GraphEdge(0, t.parent, t.id));
    }
  }

  lemma SnocAssoc<T>(a: seq<T>, b: seq<T>, x: T)
    ensures (a + b) + [x] == a + (b + [x])
  {
  }

  /** ... and one node per task, in index order. */
  lemma {:induction false} GraphvizNodes(items: seq<GraphItem>, tasks: seq<Task>, n: nat)
    requires n <= |tasks| && forall i | 0 <= i < |tasks| :: tasks[i].id == i
    ensures NodeIds(GraphvizOf(items, tasks, Iota(n))) == NodeIds(items) + Iota(n)
  {
    if n == 0 {
      assert NodeIds(items) + [] == NodeIds(items);
    } else {
      GraphvizNodes(items, tasks, n - 1);
      GraphvizNodesStep(items, tasks, n);
    }
  }

  lemma GraphvizNodesStep(items: seq<GraphItem>, tasks: seq<Task>, n: nat)
    requires 0 < n <= |tasks| && tasks[n - 1].id == n - 1
    requires NodeIds(GraphvizOf(items, tasks, Iota(n - 1))) == NodeIds(items) + Iota(n - 1)
    ensures NodeIds(GraphvizOf(items, tasks, Iota(n))) == NodeIds(items) + Iota(n)
  {
    var r' := GraphvizOf(items, tasks, Iota(n - 1));
    var before := NodeIds(items);
    GraphvizOfIota(items, tasks, n);
    GraphvizOpenRecords(r', tasks[n - 1]);
    assert NodeIds(GraphvizOf(items, tasks, Iota(n))) == NodeIds(r') + [n - 1];
    assert Iota(n) == Iota(n - 1) + [n - 1];
    SnocAssoc(before, Iota(n - 1), n - 1);
  }

  lemma {:induction false} OpenedConcat(a: seq<TreeCall>, b: seq<TreeCall>)
    ensures Opened(a + b) == Opened(a) + Opened(b)
    decreases |b|
  {
    if b == [] {
      assert a + b == a;
    } else {
      var n := |b| - 1;
      assert a + b == (a + b[..n]) + [b[n]] && b == b[..n] + [b[n]];
      OpenedConcat(a, b[..n]);
      OpenedAppend(a + b[..n], b[n]);
      OpenedAppend(b[..n], b[n]);
    }
  }

  /** The node opened by the k-th call of the walk is a task. */
  /** The k-th call of the walk adds its node to the opened ones, and that
      node is a task. */
  lemma OpenedStep(out: seq<TreeCall>, k: nat, n: nat)
    requires k < |out| && Opened(out) == Iota(n)
    ensures out[k].OpenNode? ==> out[k].node < n && Opened(out[..k + 1]) == Opened(out[..k]) + [out[k].node]
    ensures !out[k].OpenNode? ==> Opened(out[..k + 1]) == Opened(out[..k])
  {
    assert out == out[..k + 1] + out[k + 1..];
    OpenedConcat(out[..k + 1], out[k + 1..]);
    assert out[..k + 1] == out[..k] + [out[k]];
    OpenedAppend(out[..k], out[k]);
    if out[k].OpenNode? {
      var m := |Opened(out[..k])|;
      assert Opened(out)[m] == out[k].node;
      IotaAt(n, m);
    } else {
      assert Opened(out[..k]) + [] == Opened(out[..k]);
    }
  }

  lemma GraphMLOfAppend(s: GraphState, tasks: seq<Task>, order: seq<nat>, j: nat)
    requires j < |tasks|
    ensures GraphMLOf(s, tasks, order + [j]) == GraphMLOpen(GraphMLOf(s, tasks, order), tasks[j])
  {
    assert (order + [j])[..|order|] == order;
  }

  lemma GraphvizOfAppend(items: seq<GraphItem>, tasks: seq<Task>, order: seq<nat>, j: nat)
    requires j < |tasks|
    ensures GraphvizOf(items, tasks, order + [j]) == GraphvizOpen(GraphvizOf(items, tasks, order), tasks[j])
  {
    assert (order + [j])[..|order|] == order;
  }

  /** `TemplightGraphMLWriter`: a tree writer whose opened nodes become
      GraphML nodes and edges. */
  class GraphMLWriter {
    const tree: EntryTree
    var items: seq<GraphItem>
    var lastEdgeId: nat

    ghost predicate Valid()
      reads this, tree
    {
      tree.Valid()
    }

    function State(): GraphState
      reads this
    {
      GraphState(items, lastEdgeId)
    }

    constructor()
      ensures Valid() && fresh(tree) && tree.tasks == [] && items == [] && lastEdgeId == 0
    {
      tree := new EntryTree();
      items := [];
      lastEdgeId := 0;
    }

    method OpenPrintedTreeNode(t: Task)
      modifies this
      ensures State() == GraphMLOpen(old(State()), t)
    {
      items := items + [GraphNode(t.id, t.start, t.finish)];
      if t.parent == INVALID {
        return;
      }
      items := items + [GraphEdge(lastEdgeId, t.parent, t.id)];
      lastEdgeId := lastEdgeId + 1;
    }

    /** `finalize`: the tree walk, each opened node handed to
        `openPrintedTreeNode` (closing writes nothing). */
    method Finalize()
      requires Valid()
      modifies this
      ensures State() == GraphMLOf(old(State()), tree.tasks, Iota(|tree.tasks|))
    {
      TreeLaminar(Tree(tree.tasks, tree.curTop));
      var out := WalkTasks(tree.tasks);
      PrintOpened(out);
    }

    /** The walk's calls handed to the node callbacks. */
    method PrintOpened(out: seq<TreeCall>)
      requires Opened(out) == Iota(|tree.tasks|)
      modifies this
      ensures State() == GraphMLOf(old(State()), tree.tasks, Opened(out))
    {
      var k := 0;
      while k < |out|
        invariant k <= |out|
        invariant State() == GraphMLOf(old(State()), tree.tasks, Opened(out[..k]))
      {
        OpenedStep(out, k, |tree.tasks|);
        if out[k].OpenNode? {
          GraphMLOfAppend(old(State()), tree.tasks, Opened(out[..k]), out[k].node);
          OpenPrintedTreeNode(tree.tasks[out[k].node]);
        }
        k := k + 1;
      }
      assert out[..k] == out;
    }
  }

  /** `TemplightGraphVizWriter`: a tree writer whose opened nodes become
      Graphviz nodes and edges. */
  class GraphvizWriter {
    const tree: EntryTree
    var items: seq<GraphItem>

    ghost predicate Valid()
      reads this, tree
    {
      tree.Valid()
    }

    constructor()
      ensures Valid() && fresh(tree) && tree.tasks == [] && items == []
    {
      tree := new EntryTree();
      items := [];
    }

    method OpenPrintedTreeNode(t: Task)
      modifies this
      ensures items == GraphvizOpen(old(items), t)
    {
      items := items + [GraphNode(t.id, t.start, t.finish)];
      if t.parent == INVALID {
        return;
      }
      items := items + [GraphEdge(0, t.parent, t.id)];
    }

    method Finalize()
      requires Valid()
      modifies this
      ensures items == GraphvizOf(old(items), tree.tasks, Iota(|tree.tasks|))
    {
      TreeLaminar(Tree(tree.tasks, tree.curTop));
      var out := WalkTasks(tree.tasks);
      PrintOpened(out);
    }

    method PrintOpened(out: seq<TreeCall>)
      requires Opened(out) == Iota(|tree.tasks|)
      modifies this
      ensures items == GraphvizOf(old(items), tree.tasks, Opened(out))
    {
      var k := 0;
      while k < |out|
        invariant k <= |out|
        invariant items == GraphvizOf(old(items), tree.tasks, Opened(out[..k]))
      {
        OpenedStep(out, k, |tree.tasks|);
        if out[k].OpenNode? {
          GraphvizOfAppend(old(items), tree.tasks, Opened(out[..k]), out[k].node);
          OpenPrintedTreeNode(tree.tasks[out[k].node]);
        }
        k := k + 1;
      }
      assert out[..k] == out;
    }
  }
}
