/**
 The check for cyclic workload dependencies: an iterative depth-first search
 with an explicit stack, a set of visited workloads and the path being explored.

 A workload may sit on the stack twice. When the second occurrence comes up, the
 search pops the path once more, and the ancestor it loses there can no longer be
 recognised. What the search reports is therefore always a cycle, but it finds
 every cycle only if no dependency is also reached through a later sibling.
 */
module CycleCheck {
  import opened Options
  import opened NameOrder

  /** For each workload of the state the names it depends on, in the order `sort` gives them. */
  type Graph = map<Name, seq<Name>>

  // ---------- Walks and cycles ----------

  ghost predicate IsWalk(g: Graph, w: seq<Name>) {
    && w != []
    && (forall i :: 0 <= i < |w| ==> w[i] in g)
    && (forall i :: 0 <= i < |w| - 1 ==> w[i + 1] in g[w[i]])
  }

  ghost predicate WalkFromTo(g: Graph, w: seq<Name>, a: Name, b: Name) {
    IsWalk(g, w) && w[0] == a && w[|w| - 1] == b
  }

  ghost predicate Reaches(g: Graph, a: Name, b: Name) {
    exists w :: WalkFromTo(g, w, a, b)
  }

  ghost predicate OnCycle(g: Graph, n: Name) {
    exists w :: WalkFromTo(g, w, n, n) && |w| > 1
  }

  ghost predicate Acyclic(g: Graph) {
    forall n :: !OnCycle(g, n)
  }

  /** Some workload on a cycle is reachable from one of `starts`. */
  ghost predicate CycleFrom(g: Graph, starts: seq<Name>) {
    exists s, n :: s in starts && Reaches(g, s, n) && OnCycle(g, n)
  }

  ghost predicate ReachesAvoiding(g: Graph, p: Name, a: Name, b: Name) {
    exists w :: WalkFromTo(g, w, a, b) && p !in w
  }

  /** `x` is listed before some sibling from which `h` is reachable without passing the parent. */
  ghost predicate LateSibling(g: Graph, parents: set<Name>, x: Name, h: Name) {
    exists p, i, j ::
      && p in parents && p in g && 0 <= i < j < |g[p]|
      && g[p][i] == x && ReachesAvoiding(g, p, g[p][j], h)
  }

  /** No dependency of a workload is also reachable through a sibling listed after it. */
  ghost predicate NoLateShortcut(g: Graph) {
    forall x :: !LateSibling(g, g.Keys, x, x)
  }

  // ---------- The search ----------

  datatype Search = Search(todo: seq<Name>, stack: seq<Name>, visited: set<Name>, path: seq<Name>)
  datatype Outcome = Running(search: Search) | Done(cycle: Option<Name>)

  function DropLast(s: seq<Name>): seq<Name> {
    if s == [] then [] else s[..|s| - 1]
  }

  /** The first dependency that is already on the path. */
  function BackEdge(deps: seq<Name>, visited: set<Name>, path: seq<Name>): (r: Option<Name>)
    ensures r.Some? ==> r.value in deps && r.value in visited && r.value in path
    ensures r.None? ==> forall d :: d in deps && d in visited ==> d !in path
  {
    if deps == [] then None
    else if deps[0] in visited && deps[0] in path then Some(deps[0])
    else BackEdge(deps[1..], visited, path)
  }

  /** The scan stops at the first dependency on the path. */
  lemma {:induction false} FirstBackEdge(deps: seq<Name>, visited: set<Name>, path: seq<Name>)
    requires BackEdge(deps, visited, path).Some?
    ensures exists k :: 0 <= k < |deps| && BackEdge(deps, visited, path) == Some(deps[k])
                        && forall j :: 0 <= j < k ==> deps[j] !in visited || deps[j] !in path
  {
    if !(deps[0] in visited && deps[0] in path) {
      FirstBackEdge(deps[1..], visited, path);
      var k :| 0 <= k < |deps[1..]| && BackEdge(deps[1..], visited, path) == Some(deps[1..][k])
               && forall j :: 0 <= j < k ==> deps[1..][j] !in visited || deps[1..][j] !in path;
      assert forall j :: 0 < j < k + 1 ==> deps[j] == deps[1..][j - 1];
      assert deps[k + 1] == deps[1..][k];
    }
  }

  /** What the scan of the dependencies pushes: the last one ends up in front. */
  function Fresh(deps: seq<Name>, visited: set<Name>): (r: seq<Name>)
    ensures forall d :: d in r <==> d in deps && d !in visited
  {
    if deps == [] then []
    else Fresh(deps[1..], visited) + (if deps[0] !in visited then [deps[0]] else [])
  }

  function Enter(s: Search): Search
    requires s.stack != []
  {
    var head := s.stack[0];
    if head !in s.visited then s.(visited := s.visited + {head}, path := s.path + [head])
    else s.(path := DropLast(s.path), stack := s.stack[1..])
  }

  function Step(g: Graph, s: Search): Outcome {
    if s.stack == [] then
      if s.todo == [] then Done(None)
      else if s.todo[0] in s.visited then Running(s.(todo := s.todo[1..]))
      else Running(s.(todo := s.todo[1..], stack := [s.todo[0]]))
    else
      var head := s.stack[0];
      if head !in g then Running(s.(stack := s.stack[1..]))
      else
        var t := Enter(s);
        match BackEdge(g[head], t.visited, t.path)
        case Some(d) => Done(Some(d))
        case None => Running(t.(stack := Fresh(g[head], t.visited) + t.stack))
  }

  ghost predicate IsRun(g: Graph, starts: seq<Name>, run: seq<Search>, cycle: Option<Name>) {
    && run != [] && run[0] == Search(starts, [], {}, [])
    && (forall i :: 0 <= i < |run| - 1 ==> Step(g, run[i]) == Running(run[i + 1]))
    && Step(g, run[|run| - 1]) == Done(cycle)
  }

  /** The search is deterministic, so one run fixes the result. */
  lemma RunsAgree(g: Graph, starts: seq<Name>, r1: seq<Search>, c1: Option<Name>, r2: seq<Search>, c2: Option<Name>)
    requires IsRun(g, starts, r1, c1) && IsRun(g, starts, r2, c2)
    ensures c1 == c2
  {
    var k := if |r1| <= |r2| then |r1| - 1 else |r2| - 1;
    assert k < |r1| - 1 ==> Step(g, r1[k]) == Running(r1[k + 1]);
    assert k < |r2| - 1 ==> Step(g, r2[k]) == Running(r2[k + 1]);
    PrefixesAgree(g, starts, r1, c1, r2, c2, k);
  }

  lemma {:induction false} PrefixesAgree(g: Graph, starts: seq<Name>, r1: seq<Search>, c1: Option<Name>,
                                         r2: seq<Search>, c2: Option<Name>, k: nat)
    requires IsRun(g, starts, r1, c1) && IsRun(g, starts, r2, c2) && k < |r1| && k < |r2|
    ensures r1[k] == r2[k]
  {
    if k > 0 {
      PrefixesAgree(g, starts, r1, c1, r2, c2, k - 1);
      assert Step(g, r1[k - 1]) == Running(r1[k]) && Step(g, r2[k - 1]) == Running(r2[k]);
    }
  }

  // ---------- Invariant ----------

  /** The workloads whose visit is not finished, outermost first; `marks` says which stack entries these are. */
  ghost function Gray(stack: seq<Name>, marks: seq<bool>): seq<Name>
    requires |stack| == |marks|
  {
    if stack == [] then []
    else Gray(stack[1..], marks[1..]) + (if marks[0] then [stack[0]] else [])
  }

  /** Each entry hangs below the innermost unfinished workload underneath it. */
  ghost predicate Linked(g: Graph, starts: seq<Name>, stack: seq<Name>, marks: seq<bool>)
    requires |stack| == |marks|
  {
    stack == [] ||
    (&& Linked(g, starts, stack[1..], marks[1..])
     && (marks[0] ==> stack[0] in g)
     && (stack[0] in g ==> Hangs(g, starts, Gray(stack[1..], marks[1..]), stack[0])))
  }

  ghost predicate Hangs(g: Graph, starts: seq<Name>, gray: seq<Name>, n: Name) {
    if gray == [] then n in starts else gray[|gray| - 1] in g && n in g[gray[|gray| - 1]]
  }

  ghost predicate Subsequence(a: seq<Name>, b: seq<Name>) {
    a == [] || (b != [] && (Subsequence(a, b[..|b| - 1])
                            || (a[|a| - 1] == b[|b| - 1] && Subsequence(a[..|a| - 1], b[..|b| - 1]))))
  }

  lemma {:induction false} SubsequenceMember(a: seq<Name>, b: seq<Name>, x: Name)
    requires Subsequence(a, b) && x in a
    ensures x in b
    decreases |b|
  {
    if !Subsequence(a, b[..|b| - 1]) {
      if x != a[|a| - 1] {
        SubsequenceMember(a[..|a| - 1], b[..|b| - 1], x);
      }
    } else {
      SubsequenceMember(a, b[..|b| - 1], x);
    }
  }

  lemma {:induction false} SubsequenceDrop(a: seq<Name>, b: seq<Name>)
    requires Subsequence(a, b)
    ensures Subsequence(DropLast(a), b)
    ensures b != [] ==> Subsequence(DropLast(a), b[..|b| - 1])
    decreases |b|
  {
    if a != [] {
      if Subsequence(a, b[..|b| - 1]) {
        SubsequenceDrop(a, b[..|b| - 1]);
      }
    }
  }

  lemma SubsequencePush(a: seq<Name>, b: seq<Name>, x: Name)
    requires Subsequence(a, b)
    ensures Subsequence(a + [x], b + [x])
  {
    assert (a + [x])[..|a|] == a && (b + [x])[..|b|] == b;
  }

  ghost predicate Shape(g: Graph, starts: seq<Name>, s: Search, marks: seq<bool>, black: seq<Name>) {
    && |marks| == |s.stack|
    && Linked(g, starts, s.stack, marks)
    && Subsequence(s.path, Gray(s.stack, marks))
    && s.visited <= g.Keys
  }

  /** An entry pushed above an unfinished workload names another one. */
  ghost predicate Apart(s: Search, marks: seq<bool>)
    requires |marks| == |s.stack|
  {
    forall i, k :: 0 <= i < k < |s.stack| && !marks[i] && marks[k] ==> s.stack[i] != s.stack[k]
  }

  ghost predicate Coloured(s: Search, marks: seq<bool>, black: seq<Name>)
    requires |marks| == |s.stack|
  {
    && (forall n :: n in s.visited ==> n in black || n in Gray(s.stack, marks))
    && (forall n :: n in black ==> n in s.visited)
    && (forall i :: 0 <= i < |marks| && marks[i] ==> s.stack[i] in s.visited)
  }

  /** Every dependency of an unfinished workload is visited or still to come above it. */
  ghost predicate Covered(g: Graph, s: Search, marks: seq<bool>)
    requires |marks| == |s.stack|
  {
    forall i, d :: 0 <= i < |s.stack| && marks[i] && s.stack[i] in g && d in g[s.stack[i]] && d in g ==>
      d in s.visited || d in s.stack[..i]
  }

  ghost predicate BlackClosed(g: Graph, s: Search, black: seq<Name>) {
    forall n, d :: n in black && n in g && d in g[n] && d in g ==> d in s.visited
  }

  ghost predicate StartsSeen(g: Graph, starts: seq<Name>, s: Search) {
    forall n :: n in starts && n in g ==> n in s.todo || n in s.visited || n in s.stack
  }

  ghost predicate Inv(g: Graph, starts: seq<Name>, s: Search, marks: seq<bool>, black: seq<Name>) {
    && Shape(g, starts, s, marks, black)
    && Apart(s, marks)
    && Coloured(s, marks, black)
    && Covered(g, s, marks)
    && BlackClosed(g, s, black)
    && StartsSeen(g, starts, s)
    && (forall n :: n in s.todo ==> n in starts)
  }

  function Falses(n: nat): seq<bool> {
    seq(n, i => false)
  }

  lemma {:induction false} GrayPush(add: seq<Name>, stack: seq<Name>, marks: seq<bool>)
    requires |stack| == |marks|
    ensures Gray(add + stack, Falses(|add|) + marks) == Gray(stack, marks)
  {
    if add == [] {
      assert add + stack == stack && Falses(|add|) + marks == marks;
    } else {
      GrayPush(add[1..], stack, marks);
      assert (add + stack)[1..] == add[1..] + stack;
      assert (Falses(|add|) + marks)[1..] == Falses(|add| - 1) + marks;
    }
  }

  lemma {:induction false} LinkedPush(g: Graph, starts: seq<Name>, add: seq<Name>, stack: seq<Name>, marks: seq<bool>)
    requires |stack| == |marks| && Linked(g, starts, stack, marks)
    requires forall d :: d in add && d in g ==> Hangs(g, starts, Gray(stack, marks), d)
    ensures Linked(g, starts, add + stack, Falses(|add|) + marks)
  {
    if add == [] {
      assert add + stack == stack && Falses(|add|) + marks == marks;
    } else {
      assert add[0] in add;
      LinkedPush(g, starts, add[1..], stack, marks);
      GrayPush(add[1..], stack, marks);
      assert (add + stack)[1..] == add[1..] + stack;
      assert (Falses(|add|) + marks)[1..] == Falses(|add| - 1) + marks;
    }
  }

  lemma {:induction false} GrayMembers(stack: seq<Name>, marks: seq<bool>, n: Name)
    requires |stack| == |marks|
    ensures n in Gray(stack, marks) <==> exists i :: 0 <= i < |stack| && marks[i] && stack[i] == n
  {
    if stack != [] {
      GrayMembers(stack[1..], marks[1..], n);
      if n in Gray(stack[1..], marks[1..]) {
        var i :| 0 <= i < |stack| - 1 && marks[1..][i] && stack[1..][i] == n;
        assert marks[i + 1] && stack[i + 1] == n;
      }
      if i :| 0 <= i < |stack| && marks[i] && stack[i] == n {
        if i > 0 {
          assert marks[1..][i - 1] && stack[1..][i - 1] == n;
        }
      }
    }
  }

  lemma {:induction false} GrayVisited(stack: seq<Name>, marks: seq<bool>, visited: set<Name>)
    requires |stack| == |marks| && forall i :: 0 <= i < |stack| && marks[i] ==> stack[i] in visited
    ensures forall n :: n in Gray(stack, marks) ==> n in visited
  {
    if stack != [] {
      GrayVisited(stack[1..], marks[1..], visited);
    }
  }

  /** The unfinished workloads form a walk that begins at a start. */
  lemma {:induction false} GrayIsWalk(g: Graph, starts: seq<Name>, stack: seq<Name>, marks: seq<bool>)
    requires |stack| == |marks| && Linked(g, starts, stack, marks)
    ensures var w := Gray(stack, marks); w == [] || (IsWalk(g, w) && w[0] in starts)
  {
    if stack != [] {
      GrayIsWalk(g, starts, stack[1..], marks[1..]);
      if marks[0] {
        var rest, head := Gray(stack[1..], marks[1..]), stack[0];
        assert IsWalk(g, [head]);
        hide IsWalk, Linked;
        if rest == [] {
          assert rest + [head] == [head];
        } else {
          assert Hangs(g, starts, rest, head);
          WalkConcat(g, rest, [head]);
        }
      }
    }
  }

  lemma WalkConcat(g: Graph, u: seq<Name>, v: seq<Name>)
    requires IsWalk(g, u) && IsWalk(g, v) && v[0] in g[u[|u| - 1]]
    ensures IsWalk(g, u + v)
  {
  }

  /** A dependency found on the path closes a cycle through the unfinished workloads. */
  lemma FoundIsCycle(g: Graph, gray: seq<Name>, head: Name, d: Name) returns (w: seq<Name>)
    requires IsWalk(g, gray) && d in gray && head in g && d in g[head]
    requires head == gray[|gray| - 1] || head in g[gray[|gray| - 1]]
    ensures WalkFromTo(g, w, d, d) && |w| > 1 && forall n :: n in w ==> n in gray || n == head
  {
    var k :| 0 <= k < |gray| && gray[k] == d;
    w := gray[k..];
    if head != gray[|gray| - 1] {
      WalkConcat(g, w, [head]);
      w := w + [head];
    }
    WalkConcat(g, w, [d]);
    w := w + [d];
  }

  lemma FoundBelowStart(g: Graph, starts: seq<Name>, gray: seq<Name>, d: Name)
    requires IsWalk(g, gray) && gray[0] in starts && d in gray && OnCycle(g, d)
    ensures CycleFrom(g, starts)
  {
    var k :| 0 <= k < |gray| && gray[k] == d;
    assert WalkFromTo(g, gray[..k + 1], gray[0], d);
    assert Reaches(g, gray[0], d);
  }

  // ---------- Every step keeps the invariant ----------

  lemma MissingKeepsInv(g: Graph, starts: seq<Name>, s: Search, marks: seq<bool>, black: seq<Name>)
    requires Inv(g, starts, s, marks, black) && s.stack != [] && s.stack[0] !in g
    ensures Inv(g, starts, s.(stack := s.stack[1..]), marks[1..], black)
  {
    assert Gray(s.stack, marks) == Gray(s.stack[1..], marks[1..]);
    var t := s.(stack := s.stack[1..]);
    forall i, d | 0 <= i < |t.stack| && marks[1..][i] && t.stack[i] in g && d in g[t.stack[i]] && d in g
      ensures d in t.visited || d in t.stack[..i]
    {
      assert marks[i + 1];
      assert d in s.visited || d in s.stack[..i + 1];
      assert s.stack[..i + 1] == [s.stack[0]] + t.stack[..i];
    }
  }

  lemma VisitKeepsInv(g: Graph, starts: seq<Name>, s: Search, marks: seq<bool>, black: seq<Name>)
    requires Inv(g, starts, s, marks, black) && s.stack != []
    requires s.stack[0] in g && s.stack[0] !in s.visited
    ensures !marks[0]
    ensures var t := Enter(s); var add := Fresh(g[s.stack[0]], t.visited);
            Inv(g, starts, t.(stack := add + t.stack), Falses(|add|) + [true] + marks[1..], black)
  {
    var t := Enter(s);
    var add := Fresh(g[s.stack[0]], t.visited);
    assert Falses(|add|) + ([true] + marks[1..]) == Falses(|add|) + [true] + marks[1..];
    VisitShape(g, starts, s, marks, black);
    VisitCovers(g, s, marks);
    VisitColours(s, marks, black, add);
  }

  lemma VisitColours(s: Search, marks: seq<bool>, black: seq<Name>, add: seq<Name>)
    requires s.stack != [] && |marks| == |s.stack| && s.stack[0] !in s.visited
    requires Apart(s, marks) && Coloured(s, marks, black)
    requires forall d :: d in add ==> d !in s.visited && d != s.stack[0]
    ensures var u := Enter(s).(stack := add + s.stack);
            && Apart(u, Falses(|add|) + [true] + marks[1..])
            && Coloured(u, Falses(|add|) + [true] + marks[1..], black)
  {
    var u := Enter(s).(stack := add + s.stack);
    var mid, marks' := [true] + marks[1..], Falses(|add|) + [true] + marks[1..];
    assert marks' == Falses(|add|) + mid && mid[1..] == marks[1..];
    GrayPush(add, s.stack, mid);
    assert Gray(s.stack, mid) == Gray(s.stack, marks) + [s.stack[0]];
    hide Gray;
    forall i | 0 <= i < |marks'| && marks'[i]
      ensures u.stack[i] in u.visited
    {
      assert i > |add| ==> marks[i - |add|] && u.stack[i] == s.stack[i - |add|];
    }
    forall i, k | 0 <= i < k < |u.stack| && !marks'[i] && marks'[k]
      ensures u.stack[i] != u.stack[k]
    {
      assert u.stack[k] in u.visited;
      if i < |add| {
        assert u.stack[i] in add;
      } else {
        assert !marks[i - |add|] && marks[k - |add|];
        assert u.stack[i] == s.stack[i - |add|] && u.stack[k] == s.stack[k - |add|];
      }
    }
  }

  lemma VisitShape(g: Graph, starts: seq<Name>, s: Search, marks: seq<bool>, black: seq<Name>)
    requires Shape(g, starts, s, marks, black) && Coloured(s, marks, black) && s.stack != []
    requires s.stack[0] in g && s.stack[0] !in s.visited
    ensures !marks[0]
    ensures var t := Enter(s); var add := Fresh(g[s.stack[0]], t.visited);
            Shape(g, starts, t.(stack := add + t.stack), Falses(|add|) + ([true] + marks[1..]), black)
  {
    var head := s.stack[0];
    var add := Fresh(g[head], Enter(s).visited);
    var mid := [true] + marks[1..];
    assert mid[1..] == marks[1..];
    assert Gray(s.stack, mid) == Gray(s.stack, marks) + [head];
    GrayPush(add, s.stack, mid);
    LinkedPush(g, starts, add, s.stack, mid);
    SubsequencePush(s.path, Gray(s.stack, marks), head);
  }

  lemma VisitCovers(g: Graph, s: Search, marks: seq<bool>)
    requires |marks| == |s.stack| && Covered(g, s, marks) && s.stack != []
    requires s.stack[0] in g && s.stack[0] !in s.visited
    ensures var t := Enter(s); var add := Fresh(g[s.stack[0]], t.visited);
            Covered(g, t.(stack := add + t.stack), Falses(|add|) + [true] + marks[1..])
  {
    var head := s.stack[0];
    var t := Enter(s);
    var add := Fresh(g[head], t.visited);
    var u := t.(stack := add + t.stack);
    var marks' := Falses(|add|) + [true] + marks[1..];
    forall i, d | 0 <= i < |u.stack| && marks'[i] && u.stack[i] in g && d in g[u.stack[i]] && d in g
      ensures d in u.visited || d in u.stack[..i]
    {
      var j := i - |add|;
      assert u.stack[i] == s.stack[j];
      assert u.stack[..i] == add + s.stack[..j];
      if j > 0 {
        assert marks[j];
        assert d in s.visited || d in s.stack[..j];
      }
    }
  }

  /** The finished workload: the one that is popped, unless it was finished before. */
  ghost function Finish(s: Search, marks: seq<bool>, black: seq<Name>): seq<Name>
    requires s.stack != [] && |marks| == |s.stack|
  {
    if marks[0] then black + [s.stack[0]] else black
  }

  lemma LeavingIsClosed(g: Graph, starts: seq<Name>, s: Search, marks: seq<bool>, black: seq<Name>)
    requires Inv(g, starts, s, marks, black) && s.stack != [] && s.stack[0] in g && s.stack[0] in s.visited
    ensures forall d :: d in g[s.stack[0]] && d in g ==> d in s.visited
    ensures s.stack[0] in Finish(s, marks, black)
  {
    var head := s.stack[0];
    if marks[0] {
      forall d | d in g[head] && d in g
        ensures d in s.visited
      {
        assert s.stack[..0] == [];
      }
    } else {
      GrayMembers(s.stack, marks, head);
      assert head in black;
    }
  }

  lemma LeaveKeepsInv(g: Graph, starts: seq<Name>, s: Search, marks: seq<bool>, black: seq<Name>)
    requires Inv(g, starts, s, marks, black) && s.stack != [] && s.stack[0] in g && s.stack[0] in s.visited
    ensures var t := Enter(s); var add := Fresh(g[s.stack[0]], t.visited);
            && (forall d :: d in add ==> d !in g)
            && Inv(g, starts, t.(stack := add + t.stack), Falses(|add|) + marks[1..], Finish(s, marks, black))
  {
    var add := Fresh(g[s.stack[0]], s.visited);
    LeavingIsClosed(g, starts, s, marks, black);
    LeaveShape(g, starts, s, marks, black);
    LeaveCovers(g, s, marks, add);
    LeaveColours(s, marks, black, add);
  }

  lemma LeaveCovers(g: Graph, s: Search, marks: seq<bool>, add: seq<Name>)
    requires |marks| == |s.stack| && Covered(g, s, marks) && s.stack != [] && s.stack[0] in s.visited
    ensures Covered(g, Enter(s).(stack := add + s.stack[1..]), Falses(|add|) + marks[1..])
  {
    var u := Enter(s).(stack := add + s.stack[1..]);
    var marks' := Falses(|add|) + marks[1..];
    forall i, d | 0 <= i < |u.stack| && marks'[i] && u.stack[i] in g && d in g[u.stack[i]] && d in g
      ensures d in u.visited || d in u.stack[..i]
    {
      var j := i - |add| + 1;
      assert marks[j] && u.stack[i] == s.stack[j];
      assert d in s.visited || d in s.stack[..j];
      assert s.stack[..j] == [s.stack[0]] + s.stack[1..][..j - 1];
      assert u.stack[..i] == add + s.stack[1..][..j - 1];
    }
  }

  lemma LeaveColours(s: Search, marks: seq<bool>, black: seq<Name>, add: seq<Name>)
    requires s.stack != [] && |marks| == |s.stack| && s.stack[0] in s.visited
    requires Apart(s, marks) && Coloured(s, marks, black) && s.stack[0] in Finish(s, marks, black)
    requires forall d :: d in add ==> d !in s.visited
    ensures var u := Enter(s).(stack := add + s.stack[1..]);
            && Apart(u, Falses(|add|) + marks[1..])
            && Coloured(u, Falses(|add|) + marks[1..], Finish(s, marks, black))
  {
    var u := Enter(s).(stack := add + s.stack[1..]);
    var marks' := Falses(|add|) + marks[1..];
    GrayPush(add, s.stack[1..], marks[1..]);
    forall i | 0 <= i < |marks'| && marks'[i]
      ensures u.stack[i] in u.visited
    {
      assert marks[i - |add| + 1] && u.stack[i] == s.stack[i - |add| + 1];
    }
    forall i, k | 0 <= i < k < |u.stack| && !marks'[i] && marks'[k]
      ensures u.stack[i] != u.stack[k]
    {
      assert u.stack[k] in u.visited;
      if i < |add| {
        assert u.stack[i] in add;
      } else {
        assert !marks[i - |add| + 1] && marks[k - |add| + 1];
        assert u.stack[i] == s.stack[i - |add| + 1] && u.stack[k] == s.stack[k - |add| + 1];
      }
    }
  }

  lemma LeaveShape(g: Graph, starts: seq<Name>, s: Search, marks: seq<bool>, black: seq<Name>)
    requires Shape(g, starts, s, marks, black) && s.stack != [] && s.stack[0] in g && s.stack[0] in s.visited
    requires forall d :: d in g[s.stack[0]] && d in g ==> d in s.visited
    ensures var t := Enter(s); var add := Fresh(g[s.stack[0]], t.visited);
            Shape(g, starts, t.(stack := add + t.stack), Falses(|add|) + marks[1..], black)
  {
    var add := Fresh(g[s.stack[0]], s.visited);
    var gray := Gray(s.stack[1..], marks[1..]);
    var all := Gray(s.stack, marks);
    SubsequenceDrop(s.path, all);
    if marks[0] {
      assert all[..|all| - 1] == gray;
    } else {
      assert all == gray;
    }
    GrayPush(add, s.stack[1..], marks[1..]);
    LinkedPush(g, starts, add, s.stack[1..], marks[1..]);
  }

  // ---------- The stronger invariant without late shortcuts ----------

  ghost predicate Ordered(g: Graph, s: Search, marks: seq<bool>)
    requires |marks| == |s.stack|
  {
    forall i, k :: 0 <= i < k < |s.stack| && !marks[k] && s.stack[k] in g && s.stack[i] in g ==>
      LateSibling(g, s.visited, s.stack[k], s.stack[i])
  }

  /** Entries still to come are unvisited, and no unfinished workload depends on itself. */
  ghost predicate Pending(g: Graph, s: Search, marks: seq<bool>)
    requires |marks| == |s.stack|
  {
    forall k :: 0 <= k < |s.stack| && s.stack[k] in g ==>
      if marks[k] then s.stack[k] !in g[s.stack[k]] else s.stack[k] !in s.visited
  }

  /** The finished workloads in order: each one after everything it depends on. */
  ghost predicate Topological(g: Graph, black: seq<Name>) {
    forall i, d :: 0 <= i < |black| && black[i] in g && d in g[black[i]] && d in g ==> d in black[..i]
  }

  ghost predicate Clean(g: Graph, s: Search, marks: seq<bool>, black: seq<Name>) {
    && |marks| == |s.stack|
    && s.path == Gray(s.stack, marks)
    && Ordered(g, s, marks)
    && Pending(g, s, marks)
    && Topological(g, black)
  }

  lemma {:induction false} FreshOrder(deps: seq<Name>, visited: set<Name>, i: nat, k: nat) returns (a: nat, b: nat)
    requires i < k < |Fresh(deps, visited)|
    ensures a < b < |deps| && deps[a] == Fresh(deps, visited)[k] && deps[b] == Fresh(deps, visited)[i]
  {
    var rest := Fresh(deps[1..], visited);
    if k < |rest| {
      a, b := FreshOrder(deps[1..], visited, i, k);
      a, b := a + 1, b + 1;
    } else {
      assert rest[i] in rest;
      b :| 0 <= b < |deps| - 1 && deps[1..][b] == rest[i];
      a, b := 0, b + 1;
    }
  }

  lemma LateSiblingGrows(g: Graph, p1: set<Name>, p2: set<Name>, x: Name, h: Name)
    requires LateSibling(g, p1, x, h) && p1 <= p2
    ensures LateSibling(g, p2, x, h)
  {
    var p, i, j :|
      && p in p1 && p in g && 0 <= i < j < |g[p]|
      && g[p][i] == x && ReachesAvoiding(g, p, g[p][j], h);
    assert p in p2;
  }

  lemma LateSiblingExtends(g: Graph, parents: set<Name>, x: Name, h: Name, d: Name)
    requires LateSibling(g, parents, x, h) && h in g && d in g[h] && d in g && d !in parents
    ensures LateSibling(g, parents, x, d)
  {
    var p, i, j :|
      && p in parents && p in g && 0 <= i < j < |g[p]|
      && g[p][i] == x && ReachesAvoiding(g, p, g[p][j], h);
    var w :| WalkFromTo(g, w, g[p][j], h) && p !in w;
    WalkConcat(g, w, [d]);
    assert WalkFromTo(g, w + [d], g[p][j], d) && p !in w + [d];
    assert ReachesAvoiding(g, p, g[p][j], d);
  }

  lemma SiblingsAreLate(g: Graph, parents: set<Name>, head: Name, i: nat, k: nat)
    requires head in g && head in parents && i < k < |Fresh(g[head], parents)|
    requires Fresh(g[head], parents)[i] in g
    ensures LateSibling(g, parents, Fresh(g[head], parents)[k], Fresh(g[head], parents)[i])
  {
    var a, b := FreshOrder(g[head], parents, i, k);
    var d := Fresh(g[head], parents)[i];
    assert d in Fresh(g[head], parents);
    assert WalkFromTo(g, [d], d, d) && head !in [d];
    assert ReachesAvoiding(g, head, g[head][b], d);
  }

  lemma VisitKeepsOrdered(g: Graph, s: Search, marks: seq<bool>)
    requires |marks| == |s.stack| && Ordered(g, s, marks) && s.stack != []
    requires s.stack[0] in g && s.stack[0] !in s.visited
    ensures var t := Enter(s); var add := Fresh(g[s.stack[0]], t.visited);
            Ordered(g, t.(stack := add + t.stack), Falses(|add|) + [true] + marks[1..])
  {
    var head := s.stack[0];
    var t := Enter(s);
    var add := Fresh(g[head], t.visited);
    var u := t.(stack := add + t.stack);
    var marks' := Falses(|add|) + [true] + marks[1..];
    forall i, k | 0 <= i < k < |u.stack| && !marks'[k] && u.stack[k] in g && u.stack[i] in g
      ensures LateSibling(g, u.visited, u.stack[k], u.stack[i])
    {
      if k < |add| {
        SiblingsAreLate(g, u.visited, head, i, k);
      } else {
        var x, y := u.stack[k], if i < |add| then head else u.stack[i];
        assert !marks[k - |add|] && x == s.stack[k - |add|];
        assert y == s.stack[if i < |add| then 0 else i - |add|];
        assert LateSibling(g, s.visited, x, y);
        LateSiblingGrows(g, s.visited, u.visited, x, y);
        if i < |add| {
          assert u.stack[i] in add;
          LateSiblingExtends(g, u.visited, x, head, u.stack[i]);
        }
      }
    }
  }

  lemma VisitKeepsPending(g: Graph, s: Search, marks: seq<bool>)
    requires NoLateShortcut(g) && s.visited <= g.Keys
    requires |marks| == |s.stack| && Ordered(g, s, marks) && Pending(g, s, marks) && s.stack != []
    requires s.stack[0] in g && s.stack[0] !in s.visited && s.stack[0] !in g[s.stack[0]]
    ensures var t := Enter(s); var add := Fresh(g[s.stack[0]], t.visited);
            Pending(g, t.(stack := add + t.stack), Falses(|add|) + [true] + marks[1..])
  {
    var head := s.stack[0];
    var t := Enter(s);
    var add := Fresh(g[head], t.visited);
    var u := t.(stack := add + t.stack);
    var marks' := Falses(|add|) + [true] + marks[1..];
    forall k | 0 <= k < |u.stack| && u.stack[k] in g
      ensures if marks'[k] then u.stack[k] !in g[u.stack[k]] else u.stack[k] !in u.visited
    {
      var j := k - |add|;
      if k < |add| {
        assert u.stack[k] in add;
      } else if j > 0 {
        assert marks'[k] == marks[j] && u.stack[k] == s.stack[j];
        if !marks[j] && s.stack[j] == head {
          assert LateSibling(g, s.visited, s.stack[j], s.stack[0]);
          LateSiblingGrows(g, s.visited, g.Keys, head, head);
        }
      }
    }
  }

  lemma VisitKeepsClean(g: Graph, s: Search, marks: seq<bool>, black: seq<Name>)
    requires NoLateShortcut(g) && s.visited <= g.Keys && Clean(g, s, marks, black) && s.stack != []
    requires s.stack[0] in g && s.stack[0] !in s.visited && !marks[0]
    requires BackEdge(g[s.stack[0]], Enter(s).visited, Enter(s).path).None?
    ensures var t := Enter(s); var add := Fresh(g[s.stack[0]], t.visited);
            Clean(g, t.(stack := add + t.stack), Falses(|add|) + [true] + marks[1..], black)
  {
    hide Fresh, LateSibling;
    var head := s.stack[0];
    var t := Enter(s);
    var add := Fresh(g[head], t.visited);
    var mid := [true] + marks[1..];
    assert t.path[|t.path| - 1] == head && head in t.path;
    VisitKeepsOrdered(g, s, marks);
    VisitKeepsPending(g, s, marks);
    GrayPush(add, s.stack, mid);
    assert mid[1..] == marks[1..];
    assert Gray(s.stack, mid) == Gray(s.stack, marks) + [head];
    assert Falses(|add|) + mid == Falses(|add|) + [true] + marks[1..];
  }

  lemma LeaveKeepsClean(g: Graph, starts: seq<Name>, s: Search, marks: seq<bool>, black: seq<Name>)
    requires Inv(g, starts, s, marks, black) && Clean(g, s, marks, black) && s.stack != []
    requires s.stack[0] in g && s.stack[0] in s.visited
    requires BackEdge(g[s.stack[0]], Enter(s).visited, Enter(s).path).None?
    ensures var t := Enter(s); var add := Fresh(g[s.stack[0]], t.visited);
            Clean(g, t.(stack := add + t.stack), Falses(|add|) + marks[1..], Finish(s, marks, black))
  {
    var head := s.stack[0];
    var t := Enter(s);
    var add := Fresh(g[head], t.visited);
    assert marks[0];
    LeavingIsClosed(g, starts, s, marks, black);
    GrayPush(add, s.stack[1..], marks[1..]);
    assert t.path == Gray(s.stack[1..], marks[1..]);
    LeaveKeepsTopological(g, s, marks, black);
    PushMissing(g, s.(stack := s.stack[1..]), marks[1..], add) by {
      DropKeepsOrder(g, s, marks);
    }
  }

  lemma DropKeepsOrder(g: Graph, s: Search, marks: seq<bool>)
    requires |marks| == |s.stack| && Ordered(g, s, marks) && Pending(g, s, marks) && s.stack != []
    ensures Ordered(g, s.(stack := s.stack[1..]), marks[1..]) && Pending(g, s.(stack := s.stack[1..]), marks[1..])
  {
    var t := s.(stack := s.stack[1..]);
    forall i, k | 0 <= i < k < |t.stack| && !marks[1..][k] && t.stack[k] in g && t.stack[i] in g
      ensures LateSibling(g, t.visited, t.stack[k], t.stack[i])
    {
      assert !marks[k + 1] && t.stack[k] == s.stack[k + 1] && t.stack[i] == s.stack[i + 1];
    }
  }

  lemma PushMissing(g: Graph, s: Search, marks: seq<bool>, add: seq<Name>)
    requires |marks| == |s.stack| && Ordered(g, s, marks) && Pending(g, s, marks)
    requires forall d :: d in add ==> d !in g
    ensures Ordered(g, s.(stack := add + s.stack), Falses(|add|) + marks)
    ensures Pending(g, s.(stack := add + s.stack), Falses(|add|) + marks)
  {
    var t, marks' := s.(stack := add + s.stack), Falses(|add|) + marks;
    assert forall i :: 0 <= i < |add| ==> add[i] in add && t.stack[i] == add[i];
    forall i, k | 0 <= i < k < |t.stack| && !marks'[k] && t.stack[k] in g && t.stack[i] in g
      ensures LateSibling(g, t.visited, t.stack[k], t.stack[i])
    {
      assert !marks[k - |add|] && t.stack[k] == s.stack[k - |add|] && t.stack[i] == s.stack[i - |add|];
    }
    forall k | 0 <= k < |t.stack| && t.stack[k] in g
      ensures if marks'[k] then t.stack[k] !in g[t.stack[k]] else t.stack[k] !in t.visited
    {
      assert t.stack[k] == s.stack[k - |add|] && marks'[k] == marks[k - |add|];
    }
  }

  lemma LeaveKeepsTopological(g: Graph, s: Search, marks: seq<bool>, black: seq<Name>)
    requires |marks| == |s.stack| && s.stack != [] && marks[0] && s.stack[0] in g
    requires Coloured(s, marks, black) && s.path == Gray(s.stack, marks) && Topological(g, black)
    requires s.stack[0] in s.visited && s.stack[0] !in g[s.stack[0]]
    requires forall d :: d in g[s.stack[0]] && d in g ==> d in s.visited
    requires BackEdge(g[s.stack[0]], Enter(s).visited, Enter(s).path).None?
    ensures Topological(g, black + [s.stack[0]])
  {
    var head := s.stack[0];
    var black' := black + [head];
    forall i, d | 0 <= i < |black'| && black'[i] in g && d in g[black'[i]] && d in g
      ensures d in black'[..i]
    {
      if i < |black| {
        assert black'[..i] == black[..i];
      } else {
        assert black'[..i] == black;
        assert Enter(s).path == Gray(s.stack[1..], marks[1..]);
      }
    }
  }

  // ---------- The whole search ----------

  ghost predicate Good(g: Graph, starts: seq<Name>, s: Search, marks: seq<bool>, black: seq<Name>) {
    Inv(g, starts, s, marks, black) && (NoLateShortcut(g) ==> Clean(g, s, marks, black))
  }

  /** How many stack entries name a workload of the state. */
  ghost function Known(g: Graph, stack: seq<Name>): nat {
    if stack == [] then 0 else Known(g, stack[1..]) + (if stack[0] in g then 1 else 0)
  }

  lemma {:induction false} KnownPush(g: Graph, add: seq<Name>, stack: seq<Name>)
    requires forall d :: d in add ==> d !in g
    ensures Known(g, add + stack) == Known(g, stack)
  {
    if add == [] {
      assert add + stack == stack;
    } else {
      assert add[0] in add;
      KnownPush(g, add[1..], stack);
      assert (add + stack)[1..] == add[1..] + stack;
    }
  }

  lemma StackStepKeepsGood(g: Graph, starts: seq<Name>, s: Search, marks: seq<bool>, black: seq<Name>)
    returns (marks': seq<bool>, black': seq<Name>)
    requires Good(g, starts, s, marks, black) && s.stack != [] && Step(g, s).Running?
    ensures Good(g, starts, Step(g, s).search, marks', black')
  {
    var head := s.stack[0];
    if head !in g {
      marks', black' := marks[1..], black;
      MissingKeepsInv(g, starts, s, marks, black);
      if NoLateShortcut(g) {
        assert Gray(s.stack, marks) == Gray(s.stack[1..], marks[1..]);
        DropKeepsOrder(g, s, marks);
      }
    } else {
      var add := Fresh(g[head], Enter(s).visited);
      if head !in s.visited {
        marks', black' := Falses(|add|) + [true] + marks[1..], black;
        VisitKeepsInv(g, starts, s, marks, black);
        if NoLateShortcut(g) {
          VisitKeepsClean(g, s, marks, black);
        }
      } else {
        marks', black' := Falses(|add|) + marks[1..], Finish(s, marks, black);
        LeaveKeepsInv(g, starts, s, marks, black);
        if NoLateShortcut(g) {
          LeaveKeepsClean(g, starts, s, marks, black);
        }
      }
    }
  }

  lemma StackStepDecreases(g: Graph, starts: seq<Name>, s: Search, marks: seq<bool>, black: seq<Name>)
    requires Inv(g, starts, s, marks, black) && s.stack != [] && Step(g, s).Running?
    ensures var t := Step(g, s).search;
            && t.todo == s.todo && s.visited <= t.visited <= g.Keys
            && (t.visited != s.visited || Known(g, t.stack) < Known(g, s.stack)
                || (Known(g, t.stack) == Known(g, s.stack) && |t.stack| < |s.stack|))
  {
    if s.stack[0] in g && s.stack[0] in s.visited {
      LeaveKeepsInv(g, starts, s, marks, black);
      KnownPush(g, Fresh(g[s.stack[0]], s.visited), s.stack[1..]);
    }
  }

  lemma StartStepKeepsGood(g: Graph, starts: seq<Name>, s: Search, marks: seq<bool>, black: seq<Name>)
    returns (marks': seq<bool>)
    requires Good(g, starts, s, marks, black) && s.stack == [] && s.todo != []
    ensures Good(g, starts, Step(g, s).search, marks', black)
  {
    assert s.todo[0] in s.todo;
    var t := Step(g, s).search;
    assert forall n :: n in s.todo ==> n == s.todo[0] || n in t.todo;
    if s.todo[0] in s.visited {
      marks' := marks;
    } else {
      marks' := [false];
      assert t.stack[1..] == [] && marks'[1..] == [];
      assert Gray(t.stack, marks') == [];
    }
  }

  /** A reported workload lies on a cycle, whatever the graph looks like. */
  lemma ReportIsCycle(g: Graph, starts: seq<Name>, s: Search, marks: seq<bool>, black: seq<Name>, d: Name)
    returns (w: seq<Name>)
    requires Inv(g, starts, s, marks, black) && Step(g, s) == Done(Some(d))
    ensures WalkFromTo(g, w, d, d) && |w| > 1 && forall n :: n in w ==> n in s.visited || n == s.stack[0]
    ensures OnCycle(g, d) && CycleFrom(g, starts)
  {
    var head := s.stack[0];
    var t := Enter(s);
    var rest := Gray(s.stack[1..], marks[1..]);
    GrayVisited(s.stack[1..], marks[1..], s.visited);
    if head !in s.visited {
      var mid := [true] + marks[1..];
      assert mid[1..] == marks[1..];
      assert Gray(s.stack, mid) == rest + [head] && Gray(s.stack, marks) == rest;
      SubsequencePush(s.path, rest, head);
      SubsequenceMember(t.path, rest + [head], d);
      assert Linked(g, starts, s.stack, mid);
      GrayIsWalk(g, starts, s.stack, mid);
      w := FoundIsCycle(g, rest + [head], head, d);
      FoundBelowStart(g, starts, rest + [head], d);
    } else {
      LeavingIsClosed(g, starts, s, marks, black);
      LeaveShape(g, starts, s, marks, black);
      GrayPush(Fresh(g[head], t.visited), s.stack[1..], marks[1..]);
      SubsequenceMember(t.path, rest, d);
      GrayIsWalk(g, starts, s.stack[1..], marks[1..]);
      w := FoundIsCycle(g, rest, head, d);
      FoundBelowStart(g, starts, rest, d);
    }
  }

  lemma {:induction false} WalkDescends(g: Graph, black: seq<Name>, w: seq<Name>, i: nat)
    requires Topological(g, black) && IsWalk(g, w) && |w| > 1 && i < |black| && w[0] == black[i]
    ensures w[|w| - 1] in black[..i]
    decreases |w|
  {
    assert w[1] in black[..i];
    if |w| > 2 {
      var j :| 0 <= j < i && black[j] == w[1];
      assert IsWalk(g, w[1..]) by {
        forall k | 0 <= k < |w[1..]| - 1
          ensures w[1..][k + 1] in g[w[1..][k]]
        {
          assert w[k + 2] in g[w[k + 1]];
        }
      }
      WalkDescends(g, black, w[1..], j);
    }
  }

  lemma {:induction false} FirstOccurrence(s: seq<Name>, n: Name) returns (i: nat)
    requires n in s
    ensures i < |s| && s[i] == n && n !in s[..i]
  {
    if s[0] == n {
      i := 0;
    } else {
      i := FirstOccurrence(s[1..], n);
      assert s[..i + 1] == [s[0]] + s[1..][..i];
      i := i + 1;
    }
  }

  /** Once everything reachable is finished in order, there is no cycle left to find. */
  lemma NothingLeft(g: Graph, starts: seq<Name>, s: Search, marks: seq<bool>, black: seq<Name>)
    requires Good(g, starts, s, marks, black) && NoLateShortcut(g) && s.stack == [] && s.todo == []
    ensures !CycleFrom(g, starts)
  {
    if CycleFrom(g, starts) {
      var st, n :| st in starts && Reaches(g, st, n) && OnCycle(g, n);
      var u :| WalkFromTo(g, u, st, n);
      var w :| WalkFromTo(g, w, n, n) && |w| > 1;
      assert st in black;
      var i := FirstOccurrence(black, st);
      if |u| > 1 {
        WalkDescends(g, black, u, i);
      }
      assert n in black;
      var k := FirstOccurrence(black, n);
      WalkDescends(g, black, w, k);
    }
  }

  ghost function Scanned(deps: seq<Name>, visited: set<Name>, stack: seq<Name>): seq<Name> {
    if deps == [] then stack
    else Scanned(deps[1..], visited, if deps[0] !in visited then [deps[0]] + stack else stack)
  }

  lemma {:induction false} ScannedIsFresh(deps: seq<Name>, visited: set<Name>, stack: seq<Name>)
    ensures Scanned(deps, visited, stack) == Fresh(deps, visited) + stack
    decreases |deps|
  {
    if deps != [] {
      var rest := Fresh(deps[1..], visited);
      if deps[0] !in visited {
        ScannedIsFresh(deps[1..], visited, [deps[0]] + stack);
        assert rest + [deps[0]] + stack == rest + ([deps[0]] + stack);
      } else {
        ScannedIsFresh(deps[1..], visited, stack);
        assert rest + [] + stack == rest + stack;
      }
    }
  }

  method ScanDependencies(deps: seq<Name>, visited: set<Name>, path: seq<Name>, stack: seq<Name>)
    returns (found: Option<Name>, stack': seq<Name>)
    ensures found == BackEdge(deps, visited, path)
    ensures found.None? ==> stack' == Fresh(deps, visited) + stack
  {
    stack' := stack;
    for i := 0 to |deps|
      invariant Scanned(deps[i..], visited, stack') == Scanned(deps, visited, stack)
      invariant BackEdge(deps, visited, path) == BackEdge(deps[i..], visited, path)
    {
      assert deps[i..][1..] == deps[i + 1..];
      if deps[i] !in visited {
        stack' := [deps[i]] + stack';
      } else if deps[i] in path {
        return Some(deps[i]), stack';
      }
    }
    ScannedIsFresh(deps, visited, stack);
    found := None;
  }

  /** A stretch of the search from `s` to its end. */
  ghost predicate RunsTo(g: Graph, s: Search, run: seq<Search>, cycle: Option<Name>) {
    && run != [] && run[0] == s
    && (forall i :: 0 <= i < |run| - 1 ==> Step(g, run[i]) == Running(run[i + 1]))
    && Step(g, run[|run| - 1]) == Done(cycle)
  }

  lemma {:induction false} RestOfRun(g: Graph, starts: seq<Name>, s: Search, marks: seq<bool>, black: seq<Name>,
                                     run: seq<Search>, cycle: Option<Name>)
    requires Good(g, starts, s, marks, black) && RunsTo(g, s, run, cycle)
    ensures cycle.Some? ==> OnCycle(g, cycle.value) && CycleFrom(g, starts)
    ensures NoLateShortcut(g) && CycleFrom(g, starts) ==> cycle.Some?
    decreases |run|
  {
    if |run| > 1 {
      assert Step(g, run[0]) == Running(run[1]);
      var marks', black' := marks, black;
      if s.stack == [] {
        marks' := StartStepKeepsGood(g, starts, s, marks, black);
      } else {
        marks', black' := StackStepKeepsGood(g, starts, s, marks, black);
      }
      assert RunsTo(g, run[1], run[1..], cycle) by {
        forall i | 0 <= i < |run[1..]| - 1
          ensures Step(g, run[1..][i]) == Running(run[1..][i + 1])
        {
          assert Step(g, run[i + 1]) == Running(run[i + 2]);
        }
      }
      RestOfRun(g, starts, run[1], marks', black', run[1..], cycle);
    } else if cycle.Some? {
      var w := ReportIsCycle(g, starts, s, marks, black, cycle.value);
    } else if NoLateShortcut(g) {
      NothingLeft(g, starts, s, marks, black);
    }
  }

  /**
   Whatever the check reports is part of a cycle that a start reaches, and
   without late shortcuts it reports one whenever there is one.
   */
  lemma CheckResult(g: Graph, starts: seq<Name>, run: seq<Search>, cycle: Option<Name>)
    requires IsRun(g, starts, run, cycle)
    ensures cycle.Some? ==> OnCycle(g, cycle.value) && CycleFrom(g, starts)
    ensures NoLateShortcut(g) ==> (cycle.Some? <==> CycleFrom(g, starts))
  {
    RestOfRun(g, starts, run[0], [], [], run, cycle);
  }

  ghost predicate Reached(g: Graph, starts: seq<Name>, run: seq<Search>, s: Search) {
    && run != [] && run[0] == Search(starts, [], {}, []) && run[|run| - 1] == s
    && (forall i :: 0 <= i < |run| - 1 ==> Step(g, run[i]) == Running(run[i + 1]))
  }

  lemma ReachedStep(g: Graph, starts: seq<Name>, run: seq<Search>, s: Search)
    requires Reached(g, starts, run, s) && Step(g, s).Running?
    ensures Reached(g, starts, run + [Step(g, s).search], Step(g, s).search)
  {
  }

  /** The workloads of a state with the names of their dependencies. */
  type Dependencies = map<Name, set<Name>>

  /** The graph the search works on: the dependencies of a workload are sorted when it is visited. */
  ghost function InOrder(state: Dependencies): Graph {
    map n | n in state :: Sorted(state[n])
  }

  lemma InOrderAt(state: Dependencies, n: Name)
    ensures n in InOrder(state) <==> n in state
    ensures n in state ==> InOrder(state)[n] == Sorted(state[n])
  {
  }

  /** The loops of the check; the ghost variables replay them step by step. */
  method SearchFrom(state: Dependencies, starts: seq<Name>) returns (cycle: Option<Name>)
    ensures exists run :: IsRun(InOrder(state), starts, run, cycle)
  {
    hide InOrder, SortedNames;
    ghost var g := InOrder(state);
    var stack: seq<Name>, visited: set<Name>, path: seq<Name> := [], {}, [];
    ghost var s := Search(starts, [], {}, []);
    ghost var run, marks, black := [s], [], [];
    for i := 0 to |starts|
      invariant s == Search(starts[i..], stack, visited, path) && stack == [] && g == InOrder(state)
      invariant Good(g, starts, s, marks, black) && Reached(g, starts, run, s)
    {
      assert starts[i..][1..] == starts[i + 1..];
      marks := StartStepKeepsGood(g, starts, s, marks, black);
      ReachedStep(g, starts, run, s);
      s := Step(g, s).search;
      run := run + [s];
      if starts[i] in visited {
        continue;
      }
      stack := [starts[i]] + stack;
      while stack != []
        invariant s == Search(starts[i + 1..], stack, visited, path) && visited <= g.Keys && g == InOrder(state)
        invariant Good(g, starts, s, marks, black) && Reached(g, starts, run, s)
        decreases g.Keys - visited, Known(g, stack), |stack|
      {
        var head := stack[0];
        InOrderAt(state, head);
        if head in state {
          if head !in visited {
            visited := visited + {head};
            path := path + [head];
          } else {
            path := DropLast(path);
            stack := stack[1..];
          }
          var dependencies := SortSet(state[head]);
          var found;
          found, stack := ScanDependencies(dependencies, visited, path, stack);
          if found.Some? {
            assert IsRun(g, starts, run, found);
            return found;
          }
        } else {
          stack := stack[1..];
        }
        StackStepDecreases(g, starts, s, marks, black);
        marks, black := StackStepKeepsGood(g, starts, s, marks, black);
        ReachedStep(g, starts, run, s);
        s := Step(g, s).search;
        run := run + [s];
      }
    }
    cycle := None;
    assert IsRun(g, starts, run, cycle);
  }

  // ---------- The check of a state ----------

  ghost predicate SortedGraph(g: Graph) {
    forall n :: n in g ==> SortedNames(g[n])
  }

  /** The given workloads, or all of them, in sort order. */
  ghost predicate IsStartOrder(g: Graph, nodes: Option<seq<Name>>, starts: seq<Name>) {
    SortedNames(starts) && multiset(starts) == if nodes.Some? then multiset(nodes.value) else multiset(g.Keys)
  }

  method Dfs(state: Dependencies, nodes: Option<seq<Name>>) returns (cycle: Option<Name>)
    ensures var g := InOrder(state);
            exists starts, run :: IsStartOrder(g, nodes, starts) && IsRun(g, starts, run, cycle)
  {
    hide SortedNames, IsRun;
    var toVisit;
    if nodes.Some? {
      toVisit := nodes.value;
    } else {
      toVisit := ListNames(state.Keys);
    }
    var starts := SortNames(toVisit);
    cycle := SearchFrom(state, starts);
    assert InOrder(state).Keys == state.Keys;
    assert IsStartOrder(InOrder(state), nodes, starts);
  }

  /** The check of a whole state. */
  lemma FullCheckResult(g: Graph, starts: seq<Name>, run: seq<Search>, cycle: Option<Name>)
    requires IsStartOrder(g, None, starts) && IsRun(g, starts, run, cycle)
    ensures cycle.Some? ==> OnCycle(g, cycle.value)
    ensures NoLateShortcut(g) ==> (cycle.Some? <==> !Acyclic(g))
  {
    CheckResult(g, starts, run, cycle);
    if n :| OnCycle(g, n) {
      var w :| WalkFromTo(g, w, n, n) && |w| > 1;
      assert n in multiset(starts);
      assert WalkFromTo(g, [n], n, n) && Reaches(g, n, n) && n in starts;
    }
  }
}
