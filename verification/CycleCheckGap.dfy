/**
 How far the cycle check can be trusted. Take any acyclic dependencies and let
 one more workload, listed first, close a loop at a workload p. The check
 notices every such loop exactly when there are no late shortcuts.
 */
module CycleCheckGap {
  import opened Options
  import opened NameOrder
  import opened Sequences
  import opened CycleCheck

  predicate Unused(g: Graph, z: Name) {
    z !in g && forall n :: n in g ==> z !in g[n]
  }

  /** The new workload z depends on p, and p on z before all others. */
  function Close(g: Graph, p: Name, z: Name): Graph
    requires p in g
  {
    g[p := [z] + g[p]][z := [p]]
  }

  lemma ClosedIsCyclic(g: Graph, p: Name, z: Name)
    requires p in g && Unused(g, z)
    ensures CycleFrom(Close(g, p, z), [p])
  {
    var g' := Close(g, p, z);
    assert WalkFromTo(g', [p], p, p);
    assert WalkFromTo(g', [p, z, p], p, p);
    assert Reaches(g', p, p) && OnCycle(g', p) && p in [p];
  }

  lemma WalkWithoutNew(g: Graph, p: Name, z: Name, w: seq<Name>)
    requires p in g && Unused(g, z) && IsWalk(Close(g, p, z), w) && z !in w
    ensures IsWalk(g, w)
  {
    forall i | 0 <= i < |w| - 1
      ensures w[i + 1] in g[w[i]]
    {
      assert w[i] in w && w[i + 1] in w;
    }
  }

  // ---------- Without late shortcuts every loop is noticed ----------

  /** Cutting the loops through z out of a walk. */
  lemma {:induction false} WalkAround(g: Graph, p: Name, z: Name, w: seq<Name>) returns (v: seq<Name>)
    requires p in g && Unused(g, z) && IsWalk(Close(g, p, z), w)
    requires w[0] != z && w[|w| - 1] != z
    ensures IsWalk(g, v) && v[0] == w[0] && v[|v| - 1] == w[|w| - 1] && forall n :: n in v ==> n in w
    decreases |w|
  {
    if |w| == 1 {
      v := w;
    } else {
      var rest := w[1..];
      assert IsWalk(Close(g, p, z), rest) by {
        forall i | 0 <= i < |rest| - 1
          ensures rest[i + 1] in Close(g, p, z)[rest[i]]
        {
          assert w[i + 2] in Close(g, p, z)[w[i + 1]];
        }
      }
      assert w[1] in Close(g, p, z)[w[0]];
      if w[1] == z {
        assert w[2] in Close(g, p, z)[w[1]];
        assert w[0] == p == w[2];
        assert IsWalk(Close(g, p, z), w[2..]) by {
          forall i | 0 <= i < |w[2..]| - 1
            ensures w[2..][i + 1] in Close(g, p, z)[w[2..][i]]
          {
            assert w[i + 3] in Close(g, p, z)[w[i + 2]];
          }
        }
        v := WalkAround(g, p, z, w[2..]);
      } else {
        v := WalkAround(g, p, z, rest);
        WalkConcat(g, [w[0]], v);
        v := [w[0]] + v;
      }
    }
  }

  lemma AvoidingStays(g: Graph, p: Name, z: Name, q: Name, a: Name, b: Name)
    requires p in g && Unused(g, z) && ReachesAvoiding(Close(g, p, z), q, a, b) && a != z && b != z
    ensures ReachesAvoiding(g, q, a, b)
  {
    var w :| WalkFromTo(Close(g, p, z), w, a, b) && q !in w;
    var v := WalkAround(g, p, z, w);
    assert WalkFromTo(g, v, a, b) && q !in v;
  }

  lemma {:induction false} PredecessorOfNew(g: Graph, p: Name, z: Name, w: seq<Name>)
    requires p in g && Unused(g, z) && IsWalk(Close(g, p, z), w) && w[0] != z && z in w
    ensures p in w
    decreases |w|
  {
    assert w[1] in Close(g, p, z)[w[0]];
    if w[1] != z {
      assert w == [w[0]] + w[1..];
      forall i | 0 <= i < |w[1..]| - 1
        ensures w[1..][i + 1] in Close(g, p, z)[w[1..][i]]
      {
        assert w[i + 2] in Close(g, p, z)[w[i + 1]];
      }
      PredecessorOfNew(g, p, z, w[1..]);
    }
  }

  lemma NewOnlyBehindParent(g: Graph, p: Name, z: Name, a: Name)
    requires p in g && Unused(g, z) && a != z
    ensures !ReachesAvoiding(Close(g, p, z), p, a, z)
  {
    if ReachesAvoiding(Close(g, p, z), p, a, z) {
      var w :| WalkFromTo(Close(g, p, z), w, a, z) && p !in w;
      PredecessorOfNew(g, p, z, w);
    }
  }

  lemma CloseKeepsOrder(g: Graph, p: Name, z: Name)
    requires p in g && Unused(g, z) && NoLateShortcut(g)
    ensures NoLateShortcut(Close(g, p, z))
  {
    var g' := Close(g, p, z);
    forall x
      ensures !LateSibling(g', g'.Keys, x, x)
    {
      if LateSibling(g', g'.Keys, x, x) {
        var q, i, j :|
          && q in g'.Keys && q in g' && 0 <= i < j < |g'[q]|
          && g'[q][i] == x && ReachesAvoiding(g', q, g'[q][j], x);
        assert q != z;
        var d := if q == p then 1 else 0;
        assert g'[q][j] == g[q][j - d] && g[q][j - d] in g[q];
        if i < d {
          NewOnlyBehindParent(g, p, z, g'[q][j]);
        } else {
          assert g[q][i - d] == x && x in g[q];
          NoShortcutAt(g, q, i - d, j - d);
          AvoidingStays(g, p, z, q, g[q][j - d], x);
        }
      }
    }
  }

  lemma NoShortcutAt(g: Graph, p: Name, i: nat, j: nat)
    requires NoLateShortcut(g) && p in g && i < j < |g[p]|
    ensures !ReachesAvoiding(g, p, g[p][j], g[p][i])
  {
    assert !LateSibling(g, g.Keys, g[p][i], g[p][i]);
  }

  // ---------- With a late shortcut at p the loop at p is missed ----------

  /** As long as z is untouched there is nothing to report. */
  lemma NoReport(g: Graph, p: Name, z: Name, s: Search, marks: seq<bool>, black: seq<Name>)
    requires p in g && Unused(g, z) && Acyclic(g) && Inv(Close(g, p, z), [p], s, marks, black)
    requires z !in s.visited && s.stack != [] && s.stack[0] != z
    ensures Step(Close(g, p, z), s).Running?
  {
    var g' := Close(g, p, z);
    match Step(g', s)
    case Running(_) =>
    case Done(cycle) =>
      var w := ReportIsCycle(g', [p], s, marks, black, cycle.value);
      WalkWithoutNew(g, p, z, w);
      assert WalkFromTo(g, w, cycle.value, cycle.value);
      assert OnCycle(g, cycle.value);
  }

  /** Fewer workloads on the path than unfinished ones: the path has lost one. */
  ghost predicate Lost(s: Search, marks: seq<bool>) {
    |marks| == |s.stack| && |s.path| < |Gray(s.stack, marks)|
  }

  /** What is known while the entries `top` above `rest` are worked off. */
  ghost predicate Draining(g: Graph, p: Name, z: Name, s: Search, marks: seq<bool>, black: seq<Name>,
                           top: seq<Name>, rest: seq<Name>, restMarks: seq<bool>)
    requires p in g
  {
    && Inv(Close(g, p, z), [p], s, marks, black) && s.todo == []
    && z !in s.visited && z !in top && p !in top && p in s.visited
    && s.stack == top + rest && |marks| == |s.stack| && marks[|top|..] == restMarks
    && |restMarks| == |rest| && p in Gray(rest, restMarks)
  }

  lemma {:induction false} GraySuffix(top: seq<Name>, rest: seq<Name>, marks: seq<bool>)
    requires |marks| == |top| + |rest|
    ensures Gray(rest, marks[|top|..]) <= Gray(top + rest, marks)
  {
    if top == [] {
      assert top + rest == rest && marks[0..] == marks;
    } else {
      GraySuffix(top[1..], rest, marks[1..]);
      assert (top + rest)[1..] == top[1..] + rest;
      assert marks[1..][|top| - 1..] == marks[|top|..];
    }
  }

  /** What one step from `s` to `t` keeps: it works on `top` alone, and a lost workload stays lost. */
  ghost predicate Drained(g: Graph, p: Name, z: Name, s: Search, marks: seq<bool>, top: seq<Name>,
                          rest: seq<Name>, restMarks: seq<bool>,
                          t: Search, marks': seq<bool>, black': seq<Name>, top': seq<Name>)
    requires p in g
  {
    && Draining(g, p, z, t, marks', black', top', rest, restMarks)
    && (Lost(s, marks) ==> Lost(t, marks'))
    && (forall a :: a in top && a in Close(g, p, z) ==> a in top' || a in t.visited)
  }

  lemma DrainMissing(g: Graph, p: Name, z: Name, s: Search, marks: seq<bool>, black: seq<Name>,
                     top: seq<Name>, rest: seq<Name>, restMarks: seq<bool>)
    requires p in g && Draining(g, p, z, s, marks, black, top, rest, restMarks) && top != []
    requires top[0] !in Close(g, p, z)
    ensures Drained(g, p, z, s, marks, top, rest, restMarks,
                    s.(stack := s.stack[1..]), marks[1..], black, top[1..])
  {
    assert s.stack[1..] == top[1..] + rest && marks[1..][|top| - 1..] == restMarks;
    MissingKeepsInv(Close(g, p, z), [p], s, marks, black);
    assert Gray(s.stack, marks) == Gray(s.stack[1..], marks[1..]);
  }

  lemma DrainVisit(g: Graph, p: Name, z: Name, s: Search, marks: seq<bool>, black: seq<Name>,
                   top: seq<Name>, rest: seq<Name>, restMarks: seq<bool>)
    requires p in g && Unused(g, z) && Draining(g, p, z, s, marks, black, top, rest, restMarks) && top != []
    requires top[0] in Close(g, p, z) && top[0] !in s.visited
    ensures var t := Enter(s); var add := Fresh(Close(g, p, z)[top[0]], t.visited);
            Drained(g, p, z, s, marks, top, rest, restMarks,
                    t.(stack := add + t.stack), Falses(|add|) + [true] + marks[1..], black, add + top)
  {
    hide Inv, Gray, Fresh;
    var g', head, t := Close(g, p, z), top[0], Enter(s);
    assert head in top;
    assert g'[head] == g[head];
    var add := Fresh(g'[head], t.visited);
    var marks' := Falses(|add|) + [true] + marks[1..];
    VisitKeepsInv(g', [p], s, marks, black);
    VisitGray(add, s.stack, marks);
    assert add + s.stack == add + top + rest;
    assert marks'[|add + top|..] == marks[|top|..];
  }

  lemma VisitGray(add: seq<Name>, stack: seq<Name>, marks: seq<bool>)
    requires |stack| == |marks| && stack != [] && !marks[0]
    ensures |Gray(add + stack, Falses(|add|) + [true] + marks[1..])| == |Gray(stack, marks)| + 1
  {
    var mid := [true] + marks[1..];
    assert mid[1..] == marks[1..] && Falses(|add|) + mid == Falses(|add|) + [true] + marks[1..];
    GrayPush(add, stack, mid);
  }

  lemma DrainLeave(g: Graph, p: Name, z: Name, s: Search, marks: seq<bool>, black: seq<Name>,
                   top: seq<Name>, rest: seq<Name>, restMarks: seq<bool>)
    requires p in g && Unused(g, z) && Draining(g, p, z, s, marks, black, top, rest, restMarks) && top != []
    requires top[0] in Close(g, p, z) && top[0] in s.visited
    ensures var t := Enter(s); var add := Fresh(Close(g, p, z)[top[0]], t.visited);
            Drained(g, p, z, s, marks, top, rest, restMarks, t.(stack := add + t.stack),
                    Falses(|add|) + marks[1..], Finish(s, marks, black), add + top[1..])
  {
    hide Inv, Fresh;
    var g', head, t := Close(g, p, z), top[0], Enter(s);
    assert head in top;
    assert g'[head] == g[head];
    var add := Fresh(g'[head], t.visited);
    var marks' := Falses(|add|) + marks[1..];
    LeaveKeepsInv(g', [p], s, marks, black);
    assert s.stack[1..] == top[1..] + rest && marks[1..][|top| - 1..] == restMarks;
    assert add + s.stack[1..] == add + top[1..] + rest;
    assert marks'[|add + top[1..]|..] == restMarks;
    GraySuffix(top[1..], rest, marks[1..]);
    GrayPush(add, s.stack[1..], marks[1..]);
  }

  lemma DrainStep(g: Graph, p: Name, z: Name, s: Search, marks: seq<bool>, black: seq<Name>,
                  top: seq<Name>, rest: seq<Name>, restMarks: seq<bool>)
    returns (marks': seq<bool>, black': seq<Name>, top': seq<Name>)
    requires p in g && Unused(g, z) && Acyclic(g)
    requires Draining(g, p, z, s, marks, black, top, rest, restMarks) && top != []
    ensures Step(Close(g, p, z), s).Running?
    ensures Drained(g, p, z, s, marks, top, rest, restMarks, Step(Close(g, p, z), s).search, marks', black', top')
  {
    var g' := Close(g, p, z);
    assert s.stack[0] == top[0] && top[0] in top;
    NoReport(g, p, z, s, marks, black);
    if top[0] !in g' {
      marks', black', top' := marks[1..], black, top[1..];
      DrainMissing(g, p, z, s, marks, black, top, rest, restMarks);
    } else {
      var add := Fresh(g'[top[0]], Enter(s).visited);
      if top[0] !in s.visited {
        marks', black', top' := Falses(|add|) + [true] + marks[1..], black, add + top;
        DrainVisit(g, p, z, s, marks, black, top, rest, restMarks);
      } else {
        marks', black', top' := Falses(|add|) + marks[1..], Finish(s, marks, black), add + top[1..];
        DrainLeave(g, p, z, s, marks, black, top, rest, restMarks);
      }
    }
  }

  /** The search gets down to `rest`, having visited everything that was above it. */
  lemma {:induction false} Drain(g: Graph, p: Name, z: Name, s: Search, marks: seq<bool>, black: seq<Name>,
                                 top: seq<Name>, rest: seq<Name>, restMarks: seq<bool>)
    returns (t: Search, black': seq<Name>, run: seq<Search>)
    requires p in g && Unused(g, z) && Acyclic(g)
    requires Draining(g, p, z, s, marks, black, top, rest, restMarks)
    ensures Draining(g, p, z, t, restMarks, black', [], rest, restMarks)
    ensures Stretch(Close(g, p, z), run, s, t)
    ensures Lost(s, marks) ==> Lost(t, restMarks)
    ensures s.visited <= t.visited && forall a :: a in top && a in Close(g, p, z) ==> a in t.visited
    decreases Close(g, p, z).Keys - s.visited, Known(Close(g, p, z), s.stack), |s.stack|
  {
    if top == [] {
      t, black', run := s, black, [s];
      assert marks[0..] == marks && top + rest == rest;
    } else {
      var g' := Close(g, p, z);
      var marks1, black1, top1 := DrainStep(g, p, z, s, marks, black, top, rest, restMarks);
      StackStepDecreases(g', [p], s, marks, black);
      var s1 := Step(g', s).search;
      t, black', run := Drain(g, p, z, s1, marks1, black1, top1, rest, restMarks);
      StretchCons(g', run, s, s1, t);
      run := [s] + run;
    }
  }

  ghost predicate Stretch(g: Graph, run: seq<Search>, s: Search, t: Search) {
    && run != [] && run[0] == s && run[|run| - 1] == t
    && (forall i :: 0 <= i < |run| - 1 ==> Step(g, run[i]) == Running(run[i + 1]))
  }

  lemma StretchCons(g: Graph, run: seq<Search>, r: Search, s: Search, t: Search)
    requires Stretch(g, run, s, t) && Step(g, r) == Running(s)
    ensures Stretch(g, [r] + run, r, t)
  {
    forall i | 0 <= i < |run|
      ensures Step(g, ([r] + run)[i]) == Running(([r] + run)[i + 1])
    {
      if i > 0 {
        assert Step(g, run[i - 1]) == Running(run[i]);
      }
    }
  }

  lemma StretchConcat(g: Graph, r1: seq<Search>, a: Search, b: Search, r2: seq<Search>, c: Search)
    requires Stretch(g, r1, a, b) && Stretch(g, r2, b, c)
    ensures Stretch(g, r1 + r2[1..], a, c)
  {
    var r := r1 + r2[1..];
    forall i | 0 <= i < |r| - 1
      ensures Step(g, r[i]) == Running(r[i + 1])
    {
      if i < |r1| - 1 {
        assert Step(g, r1[i]) == Running(r1[i + 1]);
      } else {
        var k := i - (|r1| - 1);
        assert Step(g, r2[k]) == Running(r2[k + 1]);
        assert r[i] == r2[k];
      }
    }
  }

  lemma {:induction false} FreshConcat(a: seq<Name>, b: seq<Name>, visited: set<Name>)
    ensures Fresh(a + b, visited) == Fresh(b, visited) + Fresh(a, visited)
  {
    if a == [] {
      assert a + b == b;
    } else {
      FreshConcat(a[1..], b, visited);
      DropConcat(a, b, 1);
      ConcatAssociates(Fresh(b, visited), Fresh(a[1..], visited), if a[0] !in visited then [a[0]] else []);
    }
  }

  lemma {:induction false} SubsequenceLength(a: seq<Name>, b: seq<Name>)
    requires Subsequence(a, b)
    ensures |a| <= |b|
    decreases |b|
  {
    if a != [] {
      if Subsequence(a, b[..|b| - 1]) {
        SubsequenceLength(a, b[..|b| - 1]);
      } else {
        SubsequenceLength(a[..|a| - 1], b[..|b| - 1]);
      }
    }
  }

  /** Everything reachable from a finished workload past p is finished. */
  lemma {:induction false} FinishedWalk(g: Graph, p: Name, z: Name, s: Search, black: seq<Name>, w: seq<Name>)
    requires p in g && BlackClosed(Close(g, p, z), s, black)
    requires forall n :: n in s.visited ==> n in black || n == p
    requires IsWalk(g, w) && p !in w && w[0] in s.visited && Unused(g, z)
    ensures w[|w| - 1] in s.visited
    decreases |w|
  {
    if |w| > 1 {
      assert w[0] in w && w[1] in g[w[0]] && w[1] in w;
      assert w[1] in Close(g, p, z)[w[0]] && w[1] in Close(g, p, z);
      forall k | 0 <= k < |w[1..]| - 1
        ensures w[1..][k + 1] in g[w[1..][k]]
      {
        assert w[k + 2] in g[w[k + 1]];
      }
      FinishedWalk(g, p, z, s, black, w[1..]);
    }
  }

  /** The second occurrence of x costs the path its last workload. */
  lemma SecondOccurrence(g: Graph, p: Name, z: Name, s: Search, black: seq<Name>, top: seq<Name>, rest: seq<Name>,
                         restMarks: seq<bool>)
    returns (t: Search, marks': seq<bool>, black': seq<Name>, top': seq<Name>)
    requires p in g && Unused(g, z) && Acyclic(g) && top != []
    requires Draining(g, p, z, s, Falses(|top|) + restMarks, black, top, rest, restMarks)
    requires top[0] in g && top[0] in s.visited
    ensures Step(Close(g, p, z), s) == Running(t)
    ensures Draining(g, p, z, t, marks', black', top', rest, restMarks) && Lost(t, marks')
  {
    var g', marks := Close(g, p, z), Falses(|top|) + restMarks;
    assert s.stack[0] == top[0] && top[0] in top;
    NoReport(g, p, z, s, marks, black);
    DrainLeave(g, p, z, s, marks, black, top, rest, restMarks);
    var add := Fresh(g'[top[0]], s.visited);
    t := Step(g', s).search;
    marks', black', top' := Falses(|add|) + marks[1..], black, add + top[1..];
    GraySuffix(top, rest, marks);
    GraySuffix(top', rest, marks');
    SubsequenceLength(s.path, Gray(s.stack, marks));
    GrayPush(add, s.stack[1..], marks[1..]);
    assert marks[|top|..] == restMarks;
    assert Gray(s.stack, marks) == Gray(s.stack[1..], marks[1..]);
  }

  lemma {:induction false} OnlyMissing(g: Graph, s: Search) returns (run: seq<Search>)
    requires s.todo == [] && forall n :: n in s.stack ==> n !in g
    ensures RunsTo(g, s, run, None)
    decreases |s.stack|
  {
    if s.stack == [] {
      run := [s];
    } else {
      assert s.stack[0] in s.stack;
      var t := s.(stack := s.stack[1..]);
      var rest := OnlyMissing(g, t);
      run := RunsToCons(g, s, t, rest, None);
    }
  }

  lemma RunsToCons(g: Graph, s: Search, t: Search, rest: seq<Search>, cycle: Option<Name>) returns (run: seq<Search>)
    requires RunsTo(g, t, rest, cycle) && Step(g, s) == Running(t)
    ensures RunsTo(g, s, run, cycle)
  {
    run := [s] + rest;
    forall i | 0 <= i < |run| - 1
      ensures Step(g, run[i]) == Running(run[i + 1])
    {
      if i > 0 {
        assert Step(g, rest[i - 1]) == Running(rest[i]);
      }
    }
  }

  /** Entering z: the path holds z alone, so the dependency on p is not recognised. */
  lemma EnterNew(g: Graph, p: Name, z: Name, s: Search, black: seq<Name>)
    requires p in g && z !in g && Inv(Close(g, p, z), [p], s, [false, true], black)
    requires s.todo == [] && s.stack == [z, p] && s.path == [] && z !in s.visited && p in s.visited
    ensures var t := Search([], [z, p], s.visited + {z}, [z]);
            Step(Close(g, p, z), s) == Running(t) && Inv(Close(g, p, z), [p], t, [true, true], black)
  {
    var g', t := Close(g, p, z), Search([], [z, p], s.visited + {z}, [z]);
    assert g'[z] == [p] && [p][1..] == [];
    assert Fresh([p], t.visited) == Fresh([], t.visited) == [];
    assert BackEdge([p], t.visited, [z]).None?;
    VisitKeepsInv(g', [p], s, [false, true], black);
    assert Falses(0) + [true] + [false, true][1..] == [true, true];
    assert Enter(s) == t && [] + [z, p] == [z, p];
  }

  lemma LeaveNew(g: Graph, p: Name, z: Name, t: Search, black: seq<Name>) returns (black': seq<Name>)
    requires p in g && z !in g && Inv(Close(g, p, z), [p], t, [true, true], black)
    requires t.todo == [] && t.stack == [z, p] && t.path == [z] && z in t.visited && p in t.visited
    ensures var u := Search([], [p], t.visited, []);
            Step(Close(g, p, z), t) == Running(u) && Inv(Close(g, p, z), [p], u, [true], black')
  {
    var g', u := Close(g, p, z), Search([], [p], t.visited, []);
    assert g'[z] == [p] && [p][1..] == [];
    assert Fresh([p], t.visited) == Fresh([], t.visited) == [];
    assert BackEdge([p], t.visited, []).None?;
    LeaveKeepsInv(g', [p], t, [true, true], black);
    black' := Finish(t, [true, true], black);
    assert Falses(0) + [true, true][1..] == [true];
    assert Enter(t) == u && [] + [p] == [p];
  }

  lemma LeaveParent(g: Graph, p: Name, z: Name, u: Search, black: seq<Name>) returns (run: seq<Search>)
    requires p in g && Inv(Close(g, p, z), [p], u, [true], black)
    requires u.todo == [] && u.stack == [p] && u.path == [] && p in u.visited
    ensures RunsTo(Close(g, p, z), u, run, None)
  {
    var g' := Close(g, p, z);
    LeaveKeepsInv(g', [p], u, [true], black);
    var add := Fresh(g'[p], u.visited);
    var v := Search([], add + [], u.visited, []);
    assert BackEdge(g'[p], u.visited, []).None?;
    assert Step(g', u) == Running(v);
    run := OnlyMissing(g', v);
    run := RunsToCons(g', u, v, run, None);
  }

  /** With an empty path the loop through z and p passes unnoticed. */
  lemma LastSteps(g: Graph, p: Name, z: Name, s: Search, black: seq<Name>) returns (run: seq<Search>)
    requires p in g && Unused(g, z) && Draining(g, p, z, s, [false, true], black, [], [z, p], [false, true])
    requires s.path == []
    ensures RunsTo(Close(g, p, z), s, run, None)
  {
    hide Inv, Fresh, RunsTo;
    var g' := Close(g, p, z);
    assert s.stack == [z, p];
    EnterNew(g, p, z, s, black);
    var t := Search([], [z, p], s.visited + {z}, [z]);
    var black' := LeaveNew(g, p, z, t, black);
    var u := Search([], [p], t.visited, []);
    run := LeaveParent(g, p, z, u, black');
    run := RunsToCons(g', t, u, run, None);
    run := RunsToCons(g', s, t, run, None);
  }

  lemma SelfFree(g: Graph, p: Name)
    requires Acyclic(g) && p in g
    ensures p !in g[p]
  {
    if p in g[p] {
      SelfLoop(g, p);
    }
  }

  lemma SelfLoop(g: Graph, p: Name)
    requires p in g && p in g[p]
    ensures OnCycle(g, p)
  {
    assert WalkFromTo(g, [p, p], p, p);
  }

  lemma {:induction false} GrayOfFalses(top: seq<Name>, p: Name)
    ensures Gray(top + [p], Falses(|top|) + [true]) == [p]
  {
    GrayPush(top, [p], [true]);
    assert Gray([p], [true]) == Gray([], []) + [p];
  }

  lemma FreshOfClosed(deps: seq<Name>, p: Name, z: Name)
    requires z != p
    ensures Fresh([z] + deps, {p}) == Fresh(deps, {p}) + [z]
  {
    FreshConcat([z], deps, {p});
    assert [z][1..] == [] && Fresh([z], {p}) == Fresh([], {p}) + [z];
  }

  /** The search up to the point where the dependencies of p are on the stack. */
  lemma FirstSteps(g: Graph, p: Name, z: Name) returns (s: Search, run: seq<Search>)
    requires p in g && Unused(g, z) && Acyclic(g)
    ensures var g' := Close(g, p, z); var add := Fresh(g[p], {p});
            && Stretch(g', run, Search([p], [], {}, []), s)
            && s == Search([], add + [z] + [p], {p}, [p])
            && Inv(g', [p], s, Falses(|add| + 1) + [true], [])
  {
    hide Inv, Fresh;
    var g' := Close(g, p, z);
    var s0, s1 := Search([p], [], {}, []), Search([], [p], {}, []);
    assert [p][1..] == [];
    assert Step(g', s0) == Running(s1);
    StartIsGood(g', p);
    VisitKeepsInv(g', [p], s1, [false], []);
    NoReport(g, p, z, s1, [false], []);
    s := Step(g', s1).search;
    FreshOfClosed(g[p], p, z);
    var add := Fresh(g[p], {p});
    assert Fresh(g'[p], {p}) == add + [z];
    assert Enter(s1) == Search([], [p], {p}, [p]);
    assert Falses(|add + [z]|) + [true] + [false][1..] == Falses(|add| + 1) + [true];
    run := [s0, s1, s];
    assert Stretch(g', run, s0, s);
  }

  lemma StartIsGood(g: Graph, p: Name)
    ensures Inv(g, [p], Search([], [p], {}, []), [false], [])
  {
    assert [p][1..] == [] && [false][1..] == [];
    assert Gray([p], [false]) == [];
    assert Linked(g, [p], [], []) && Linked(g, [p], [p], [false]);
  }

  lemma FreshAround(d: seq<Name>, i: nat, visited: set<Name>)
    requires i < |d| && d[i] !in visited
    ensures Fresh(d, visited) == Fresh(d[i + 1..], visited) + [d[i]] + Fresh(d[..i], visited)
  {
    assert d == d[..i] + ([d[i]] + d[i + 1..]);
    FreshConcat(d[..i], [d[i]] + d[i + 1..], visited);
    FreshConcat([d[i]], d[i + 1..], visited);
    assert [d[i]][1..] == [] && Fresh([d[i]], visited) == Fresh([], visited) + [d[i]];
  }

  lemma SiblingsOnStack(g: Graph, p: Name, z: Name, x: Name, above: seq<Name>, below: seq<Name>, s: Search)
    requires p in g && p !in above && z !in above && z != p
    requires s == Search([], above + [x] + below + [z] + [p], {p}, [p])
    requires Inv(Close(g, p, z), [p], s, Falses(|above| + |below| + 2) + [true], [])
    ensures Draining(g, p, z, s, Falses(|above| + |below| + 2) + [true], [], above,
                     [x] + below + [z] + [p], Falses(|below| + 2) + [true])
  {
    hide Inv, Gray;
    GrayOfFalses([x] + below + [z], p);
    assert s.stack == above + ([x] + below + [z] + [p]);
    assert (Falses(|above| + |below| + 2) + [true])[|above|..] == Falses(|below| + 2) + [true];
  }

  lemma RegroupStack(g: Graph, p: Name, z: Name, x: Name, below: seq<Name>, t: Search, black: seq<Name>)
    requires p in g && Unused(g, z) && x != p && x != z && p !in below && z !in below
    requires var rest, marks := [x] + below + [z] + [p], Falses(|below| + 2) + [true];
             Draining(g, p, z, t, marks, black, [], rest, marks)
    ensures Draining(g, p, z, t, Falses(|below| + 1) + [false, true], black, [x] + below, [z, p], [false, true])
  {
    hide Inv, Gray;
    LoopBottom(p, z);
    assert [x] + below + [z] + [p] == [x] + below + [z, p];
    assert Falses(|below| + 2) + [true] == Falses(|below| + 1) + [false, true];
    assert (Falses(|below| + 1) + [false, true])[|below| + 1..] == [false, true];
  }

  /** Working off the siblings after x finishes x as well. */
  lemma SiblingsFinishFirst(g: Graph, p: Name, z: Name, x: Name, y: Name, above: seq<Name>, below: seq<Name>, s: Search)
    returns (t: Search, black: seq<Name>, run: seq<Search>)
    requires p in g && Unused(g, z) && Acyclic(g) && z != p
    requires p !in above && z !in above && p !in below && z !in below && y in above
    requires ReachesAvoiding(g, p, y, x)
    requires s == Search([], above + [x] + below + [z] + [p], {p}, [p])
    requires Inv(Close(g, p, z), [p], s, Falses(|above| + |below| + 2) + [true], [])
    ensures Draining(g, p, z, t, Falses(|below| + 1) + [false, true], black, [x] + below, [z, p], [false, true])
    ensures Stretch(Close(g, p, z), run, s, t) && x in g && x in t.visited
  {
    var w :| WalkFromTo(g, w, y, x) && p !in w;
    assert w[0] == y && w[|w| - 1] == x && x in w;
    SiblingsOnStack(g, p, z, x, above, below, s);
    var rest, marks := [x] + below + [z] + [p], Falses(|below| + 2) + [true];
    t, black, run := Drain(g, p, z, s, Falses(|above| + |below| + 2) + [true], [], above, rest, marks);
    GrayOfFalses([x] + below + [z], p);
    assert [] + rest == rest;
    FinishedWalk(g, p, z, t, black, w);
    RegroupStack(g, p, z, x, below, t, black);
  }

  lemma LoopBottom(p: Name, z: Name)
    ensures Gray([z, p], [false, true]) == [p]
  {
    GrayOfFalses([z], p);
    assert [z] + [p] == [z, p] && Falses(1) + [true] == [false, true];
  }

  lemma Assemble(g: Graph, r: Search, s: Search, run0: seq<Search>, t: Search, run1: seq<Search>,
                 u: Search, v: Search, run2: seq<Search>, run3: seq<Search>) returns (run: seq<Search>)
    requires Stretch(g, run0, r, s) && Stretch(g, run1, s, t) && Step(g, t) == Running(u)
    requires Stretch(g, run2, u, v) && RunsTo(g, v, run3, None)
    ensures RunsTo(g, r, run, None)
  {
    StretchConcat(g, run0, r, s, run1, t);
    StretchCons(g, run2, t, u, v);
    StretchConcat(g, run0 + run1[1..], r, t, [t] + run2, v);
    var front := run0 + run1[1..] + ([t] + run2)[1..];
    assert Stretch(g, run3, v, run3[|run3| - 1]);
    StretchConcat(g, front, r, v, run3, run3[|run3| - 1]);
    run := front + run3[1..];
  }

  /** A late shortcut at p: x is finished when the search comes to its own turn. */
  lemma ShortcutFinished(g: Graph, p: Name, z: Name, i: nat, j: nat)
    returns (s: Search, run0: seq<Search>, below: seq<Name>, t: Search, black: seq<Name>, run1: seq<Search>)
    requires p in g && Unused(g, z) && Acyclic(g)
    requires i < j < |g[p]| && ReachesAvoiding(g, p, g[p][j], g[p][i])
    ensures Stretch(Close(g, p, z), run0, Search([p], [], {}, []), s) && Stretch(Close(g, p, z), run1, s, t)
    ensures g[p][i] in g && g[p][i] in t.visited
    ensures Draining(g, p, z, t, Falses(|below| + 1) + [false, true], black, [g[p][i]] + below, [z, p], [false, true])
  {
    hide Inv, Stretch, Draining, Fresh, Acyclic, ReachesAvoiding, Unused;
    s, run0 := FirstSteps(g, p, z);
    AroundShortcut(g, p, z, i, j);
    var above := Fresh(g[p][i + 1..], {p});
    below := Fresh(g[p][..i], {p});
    t, black, run1 := SiblingsFinishFirst(g, p, z, g[p][i], g[p][j], above, below, s);
  }

  lemma AroundShortcut(g: Graph, p: Name, z: Name, i: nat, j: nat)
    requires p in g && Unused(g, z) && Acyclic(g) && i < j < |g[p]|
    ensures var above, below := Fresh(g[p][i + 1..], {p}), Fresh(g[p][..i], {p});
            && Fresh(g[p], {p}) == above + [g[p][i]] + below
            && p !in above && z !in above && p !in below && z !in below && g[p][j] in above && z != p
  {
    SelfFree(g, p);
    hide Acyclic, Fresh;
    var d := g[p];
    assert d[i] in d && d[j] in d && d[i + 1..][j - i - 1] == d[j];
    FreshAround(d, i, {p});
  }

  /** ... and its second visit takes p off the path, so the search ends without noticing the loop. */
  lemma LoopMissed(g: Graph, p: Name, z: Name, i: nat, j: nat) returns (run: seq<Search>)
    requires p in g && Unused(g, z) && Acyclic(g)
    requires i < j < |g[p]| && ReachesAvoiding(g, p, g[p][j], g[p][i])
    ensures IsRun(Close(g, p, z), [p], run, None)
  {
    hide Inv, Stretch, Step, Acyclic, ReachesAvoiding, Unused;
    var s, run0, below, t, black1, run1 := ShortcutFinished(g, p, z, i, j);
    var top := [g[p][i]] + below;
    var u, marks2, black2, top2 := SecondOccurrence(g, p, z, t, black1, top, [z, p], [false, true]);
    var v, black3, run2 := Drain(g, p, z, u, marks2, black2, top2, [z, p], [false, true]);
    LoopBottom(p, z);
    assert [] + [z, p] == [z, p];
    var run3 := LastSteps(g, p, z, v, black3);
    run := Assemble(Close(g, p, z), Search([p], [], {}, []), s, run0, t, run1, u, v, run2, run3);
  }

  /**
   The exact reach of the check: for acyclic dependencies, closing a loop at any
   workload is noticed from there if and only if there are no late shortcuts.
   */
  lemma LoopsNoticedIff(g: Graph, z: Name)
    requires Acyclic(g) && Unused(g, z)
    ensures NoLateShortcut(g) <==>
            forall p, run, cycle :: p in g && IsRun(Close(g, p, z), [p], run, cycle) ==> cycle.Some?
  {
    if NoLateShortcut(g) {
      forall p, run, cycle | p in g && IsRun(Close(g, p, z), [p], run, cycle)
        ensures cycle.Some?
      {
        CloseKeepsOrder(g, p, z);
        ClosedIsCyclic(g, p, z);
        CheckResult(Close(g, p, z), [p], run, cycle);
      }
    } else {
      var x :| LateSibling(g, g.Keys, x, x);
      var p, i, j :|
        && p in g.Keys && p in g && 0 <= i < j < |g[p]|
        && g[p][i] == x && ReachesAvoiding(g, p, g[p][j], x);
      var run := LoopMissed(g, p, z, i, j);
    }
  }

  const EXAMPLE: Graph := map["a" := ["c", "d"], "c" := [], "d" := ["c"]]

  /** d, c and b are dependencies of a, d needs c and b needs a: the cycle of a and b is missed. */
  lemma ExampleMissed() returns (run: seq<Search>)
    ensures IsRun(map["a" := ["b", "c", "d"], "b" := ["a"], "c" := [], "d" := ["c"]], ["a"], run, None)
    ensures CycleFrom(map["a" := ["b", "c", "d"], "b" := ["a"], "c" := [], "d" := ["c"]], ["a"])
  {
    ExampleIsAcyclic();
    assert WalkFromTo(EXAMPLE, ["d", "c"], "d", "c") && "a" !in ["d", "c"];
    assert ReachesAvoiding(EXAMPLE, "a", EXAMPLE["a"][1], EXAMPLE["a"][0]);
    run := LoopMissed(EXAMPLE, "a", "b", 0, 1);
    ClosedIsCyclic(EXAMPLE, "a", "b");
    assert ["b"] + EXAMPLE["a"] == ["b", "c", "d"];
    assert Close(EXAMPLE, "a", "b") == map["a" := ["b", "c", "d"], "b" := ["a"], "c" := [], "d" := ["c"]];
  }

  lemma ExampleIsAcyclic()
    ensures Acyclic(EXAMPLE)
  {
    var order := ["c", "d", "a"];
    assert order[..1] == ["c"] && order[..2] == ["c", "d"];
    assert Topological(EXAMPLE, order);
    forall n
      ensures !OnCycle(EXAMPLE, n)
    {
      if w :| WalkFromTo(EXAMPLE, w, n, n) && |w| > 1 {
        assert n in EXAMPLE && n in order;
        var i := FirstOccurrence(order, n);
        WalkDescends(EXAMPLE, order, w, i);
      }
    }
  }
}
