/** The state machine of topo_sort (src/codegen_new/codegen.cc, lines 1427-1518): a depth-first search over
    register moves that frees a register by copying it to a temporary when it meets a cycle. */
module MoveGraph {
  type Move = (int, int)

  /** edges lists, for each register, the registers that take its value, in insertion order; visited is
      0 for an open register, 1 for one on the search path and 2 for a finished one; nret is the list of
      moves emitted so far, each from its first to its second component. */
  datatype State = State(nodes: set<int>, edges: map<int, seq<int>>, visited: map<int, int>, pool: set<int>,
      nret: seq<Move>) {
    function Mark(n: int): int { if n in visited then visited[n] else 0 }

    function Set(n: int, mark: int): State { this.(visited := visited[n := mark]) }

    ghost predicate Within(U: set<int>) { Inside(edges, U) }

    ghost function Fresh(U: set<int>): set<int> { set x | x in U && Mark(x) != 1 && Mark(x) != 2 }
  }

  function Outs(edges: map<int, seq<int>>, n: int): seq<int> { if n in edges then edges[n] else [] }

  // Registers have non-negative ids; -1 stands for "no cycle".
  ghost predicate Inside(edges: map<int, seq<int>>, U: set<int>) {
    && (forall x :: x in U ==> 0 <= x)
    && (forall u, i {:trigger Outs(edges, u)[i]} :: 0 <= i < |Outs(edges, u)| ==> Outs(edges, u)[i] in U)
  }

  // Lines 1461-1488. The second result is the register a cycle was found at, or -1.
  ghost function Dfs(U: set<int>, lo: int, st: State, n: int): (r: (State, int))
    requires st.Within(U) && n in U
    ensures r.0.edges == st.edges && (r.1 == -1 || r.1 in U)
    ensures r.1 == -1 ==> r.0.Fresh(U) <= st.Fresh(U)
    decreases st.Fresh(U), 0
  {
    if st.Mark(n) == 2 then (st, -1)
    else if st.Mark(n) == 1 then (st.Set(n, 0), n)
    else
      assert st.Set(n, 1).Fresh(U) <= st.Fresh(U) && n in st.Fresh(U) && n !in st.Set(n, 1).Fresh(U);
      Kids(U, lo, st.Set(n, 1), n, 0)
  }

  // The loop of lines 1472-1476 from edge i of n on, and what follows it.
  ghost function Kids(U: set<int>, lo: int, st: State, n: int, i: nat): (r: (State, int))
    requires st.Within(U) && n in U && i <= |Outs(st.edges, n)| && n !in st.Fresh(U)
    ensures r.0.edges == st.edges && (r.1 == -1 || r.1 in U)
    ensures r.1 == -1 ==> r.0.Fresh(U) <= st.Fresh(U)
    decreases st.Fresh(U), 1 + |Outs(st.edges, n)| - i
  {
    if i == |Outs(st.edges, n)| then (Finish(lo, st, n), -1)
    else
      var (s, r) := Dfs(U, lo, st, Outs(st.edges, n)[i]);
      if r != -1 then (s.Set(n, 0), r)
      else
        Kids(U, lo, s, n, i + 1)
  }

  // Lines 1477-1487: everything n feeds is finished, so its moves can be made.
  function Finish(lo: int, st: State, n: int): State {
    State(st.nodes - {n}, st.edges, st.visited[n := 2], if n >= lo then st.pool + {n} else st.pool,
          st.nret + Moves(n, Outs(st.edges, n)))
  }

  function Moves(n: int, to: seq<int>): (r: seq<Move>)
    ensures |r| == |to|
    ensures forall i :: 0 <= i < |to| ==> r[i] == (n, to[i])
  {
    seq(|to|, i requires 0 <= i < |to| => (n, to[i]))
  }

  ghost predicate IsMax(s: set<int>, n: int) { n in s && forall x :: x in s ==> x <= n }

  ghost predicate IsMin(s: set<int>, n: int) { n in s && forall x :: x in s ==> n <= x }

  // Lines 1493-1506: register n moves to the temporary t, which takes over what n feeds.
  function Break(st: State, n: int, t: int): State {
    State(st.nodes + {t}, (st.edges - {t} - {n})[t := if n == t then [] else Outs(st.edges, n)], st.visited[t := 0],
          st.pool - {t}, st.nret + [(n, t)])
  }

  // One round of the loop of lines 1454-1508 that starts at the greatest register left. With an empty
  // pool there is no next state.
  ghost predicate Round(U: set<int>, lo: int, st: State, next: State) {
    && st.Within(U)
    && exists n :: IsMax(st.nodes, n) && n in U && st.Mark(n) == 0 && RoundFrom(U, lo, st, n, next)
  }

  ghost predicate RoundFrom(U: set<int>, lo: int, st: State, n: int, next: State)
    requires st.Within(U) && n in U
  {
    var (s, r) := Dfs(U, lo, st, n);
    if r == -1 then next == s
    else exists t :: IsMin(s.pool, t) && next == Break(s, r, t)
  }

  // next is reached from st after some rounds.
  ghost predicate Rounds(U: set<int>, lo: int, run: seq<State>) {
    && |run| > 0
    && forall i, j {:trigger run[i], run[j]} :: 0 <= i < j < |run| && j == i + 1 ==> Round(U, lo, run[i], run[j])
  }

  // ---------- what a list of moves does ----------

  // The place whose first content x holds after the moves.
  ghost function Origin<T>(moves: seq<(T, T)>, x: T): T {
    if |moves| == 0 then x
    else
      var (from, to) := moves[|moves| - 1];
      Origin(moves[..|moves| - 1], if x == to then from else x)
  }

  // The contents of all places after making the moves one by one.
  ghost function Run<T, V>(moves: seq<(T, T)>, contents: T -> V): T -> V {
    if |moves| == 0 then contents
    else
      var r := Run(moves[..|moves| - 1], contents);
      var (from, to) := moves[|moves| - 1];
      x => if x == to then r(from) else r(x)
  }

  /** Contents only travel. */
  lemma {:induction false} RunIsOrigin<T, V>(moves: seq<(T, T)>, contents: T -> V, x: T)
    ensures Run(moves, contents)(x) == contents(Origin(moves, x))
  {
    if |moves| > 0 {
      var (from, to) := moves[|moves| - 1];
      RunIsOrigin(moves[..|moves| - 1], contents, if x == to then from else x);
    }
  }

  lemma OriginLast<T>(moves: seq<(T, T)>, from: T, to: T, x: T)
    ensures Origin(moves + [(from, to)], x) == Origin(moves, if x == to then from else x)
  {
    assert (moves + [(from, to)])[..|moves|] == moves;
  }

  lemma {:induction false} OriginConcat<T>(a: seq<(T, T)>, b: seq<(T, T)>, x: T)
    ensures Origin(a + b, x) == Origin(a, Origin(b, x))
    decreases |b|
  {
    if |b| == 0 {
      assert a + b == a;
    } else {
      var k := |b| - 1;
      assert a + b == (a + b[..k]) + [b[k]];
      OriginLast(a + b[..k], b[k].0, b[k].1, x);
      OriginConcat(a, b[..k], if x == b[k].1 then b[k].0 else x);
    }
  }

  // Copying n to registers other than itself.
  lemma {:induction false} OriginMoves(moves: seq<Move>, n: int, to: seq<int>, x: int)
    requires n !in to
    ensures Origin(moves + Moves(n, to), x) == Origin(moves, if x in to then n else x)
    decreases |to|
  {
    if |to| == 0 {
      assert moves + Moves(n, to) == moves;
    } else {
      var k := |to| - 1;
      OriginMoves(moves, n, to[..k], if x == to[k] then n else x);
      assert moves + Moves(n, to) == (moves + Moves(n, to[..k])) + [(n, to[k])];
      OriginLast(moves + Moves(n, to[..k]), n, to[k], x);
      assert to == to[..k] + [to[k]];
    }
  }
}
