/** The parts of SSA form that constant propagation and dead code elimination share. */
module SsaForm {
  import opened Graphs

  type Var = int

  datatype Operand = Num(n: int) | Use(x: Var)

  datatype Phi = Phi(x: Var, ins: seq<(Operand, Node)>)

  datatype Term = Jump(to: Node) | Branch(cond: Operand, ifTrue: Node, ifFalse: Node) | Return(uses: seq<Operand>)

  // What the variables hold that have been defined.
  type Env = map<Var, int>

  predicate Ready(e: Env, o: Operand) { o.Num? || o.x in e }

  function Value(e: Env, o: Operand): int
    requires Ready(e, o)
  {
    match o case Num(n) => n case Use(x) => e[x]
  }
}
