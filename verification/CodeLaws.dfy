// What finished code leaves in its register, operator by operator: each law
// speaks of compiled code, truth and the outcomes of comparisons alone.
module CodeLaws {
  import opened LuaValues
  import opened Bytecode
  import opened Expressions
  import opened CodeGen

  datatype Chunk = Chunk(code: seq<Instr>, k: seq<Value>)

  // What the chunk leaves in register v when it is run on the registers q.
  ghost function Left(rel: Relation, c: Chunk, v: nat, q: Regs): Value
    requires v < 256
  {
    Run(rel, c.k, c.code, 0, q)[v]
  }

  // The code of `v = x`.
  method Compiled(params: nat, x: Expr, v: nat, ghost rel: Relation) returns (ok: bool, c: Chunk)
    requires v < params < MAXSTACK && LocalsBelow(x, params)
    ensures ok && Right(x, false) ==> forall q {:trigger Left(rel, c, v, q)} :: Left(rel, c, v, q) == Eval(rel, x, q)
    ensures ok && x.Local? ==> forall q: Regs {:trigger Left(rel, c, v, q)} :: Left(rel, c, v, q) == q[x.r]
    ensures params + Size(x) + 8 <= MAXSTACK ==> ok
  {
    if x.Local? { UsualRight(x, false); }
    var r, code, k, _ := CompileAssignment(params, x, v, rel);
    return r.Pass?, Chunk(code, k);
  }

  // Locals and literals.
  method Leaves(params: nat, p: nat, n: real, s: string, v: nat, ghost rel: Relation)
    returns (ok: bool, local: Chunk, yes: Chunk, no: Chunk, number: Chunk, text: Chunk)
    requires v < params < MAXSTACK && p < params
    ensures params <= 241 ==> ok
    ensures ok ==> forall q: Regs {:trigger Left(rel, local, v, q)} ::
              && Left(rel, local, v, q) == q[p]
              && Left(rel, yes, v, q) == Bool(true)
              && Left(rel, no, v, q) == Bool(false)
              && Left(rel, number, v, q) == Number(n)
              && Left(rel, text, v, q) == LuaValues.Str(s)
  {
    var b0, b1, b2, b3, b4;
    b0, local := Compiled(params, Local(p), v, rel);
    b1, yes := Compiled(params, True, v, rel);
    b2, no := Compiled(params, False, v, rel);
    b3, number := Compiled(params, Num(n), v, rel);
    b4, text := Compiled(params, Expr.Str(s), v, rel);
    ok := b0 && b1 && b2 && b3 && b4;
    UsualRight(Local(p), false);
    UsualRight(True, false);
    UsualRight(False, false);
    UsualRight(Num(n), false);
    UsualRight(Expr.Str(s), false);
  }

  // `not`, `and` and `or`: nil and false are false, and everything else is true.
  method Connectives(params: nat, y: Expr, z: Expr, v: nat, ghost rel: Relation)
    returns (ok: bool, cy: Chunk, cz: Chunk, negation: Chunk, both: Chunk, either: Chunk)
    requires v < params < MAXSTACK && LocalsBelow(y, params) && LocalsBelow(z, params)
    ensures params + Size(y) + Size(z) + 9 <= 250 ==> ok
    ensures y.Local? && ok ==> forall q: Regs {:trigger Left(rel, cy, v, q)} :: Left(rel, cy, v, q) == q[y.r]
    ensures z.Local? && ok ==> forall q: Regs {:trigger Left(rel, cz, v, q)} :: Left(rel, cz, v, q) == q[z.r]
    ensures ok && Right(y, false) && Right(Expr.Not(y), false) ==>
              forall q: Regs {:trigger Left(rel, negation, v, q)} ::
                var a := Left(rel, cy, v, q);
                Left(rel, negation, v, q) == if a == Nil || a == Bool(false) then Bool(true) else Bool(false)
    ensures ok && Right(y, false) && Right(z, false) && Right(And(y, z), false) ==>
              forall q: Regs {:trigger Left(rel, both, v, q)} ::
                var a := Left(rel, cy, v, q);
                Left(rel, both, v, q) == if a == Nil || a == Bool(false) then a else Left(rel, cz, v, q)
    ensures ok && Right(y, false) && Right(z, false) && Right(Or(y, z), false) ==>
              forall q: Regs {:trigger Left(rel, either, v, q)} ::
                var a := Left(rel, cy, v, q);
                Left(rel, either, v, q) == if a == Nil || a == Bool(false) then Left(rel, cz, v, q) else a
  {
    hide Right;
    var b0, b1, b2, b3, b4;
    b0, cy := Compiled(params, y, v, rel);
    b1, cz := Compiled(params, z, v, rel);
    b2, negation := Compiled(params, Expr.Not(y), v, rel);
    b3, both := Compiled(params, And(y, z), v, rel);
    b4, either := Compiled(params, Or(y, z), v, rel);
    ok := b0 && b1 && b2 && b3 && b4;
  }

  // The same for two locals.
  method LocalConnectives(params: nat, p1: nat, p2: nat, v: nat, ghost rel: Relation)
    returns (ok: bool, negation: Chunk, both: Chunk, either: Chunk)
    requires v < params < MAXSTACK && p1 < params && p2 < params
    ensures params <= 239 ==> ok
    ensures ok ==> forall q: Regs {:trigger Left(rel, negation, v, q)} ::
              && Left(rel, negation, v, q) == (if q[p1] == Nil || q[p1] == Bool(false) then Bool(true) else Bool(false))
              && Left(rel, both, v, q) == (if q[p1] == Nil || q[p1] == Bool(false) then q[p1] else q[p2])
              && Left(rel, either, v, q) == if q[p1] == Nil || q[p1] == Bool(false) then q[p2] else q[p1]
  {
    var y, z := Local(p1), Local(p2);
    var cy, cz;
    ok, cy, cz, negation, both, either := Connectives(params, y, z, v, rel);
    assert Usual(y) && Usual(z) && Variable(y);
    UsualRight(y, false);
    UsualRight(z, false);
    UsualRight(Expr.Not(y), false);
    UsualRight(And(y, z), false);
    UsualRight(Or(y, z), false);
  }

  lemma RightAlike(y: Expr, z: Expr)
    ensures forall op {:trigger Compare(op, y, z)} :: Right(Compare(op, y, z), false) == Right(Compare(EQ, y, z), false)
  {
    forall op ensures Right(Compare(op, y, z), false) == Right(Compare(EQ, y, z), false) {
      assert Paths(Compare(op, y, z), false) == {End(false)} == Paths(Compare(EQ, y, z), false);
    }
  }

  ghost predicate EvaluatesComparisons(rel: Relation, y: Expr, z: Expr, q: Regs) {
    var a, b := Eval(rel, y, q), Eval(rel, z, q);
    && Eval(rel, Compare(EQ, y, z), q) == Bool(rel(OpEq, a, b))
    && Eval(rel, Compare(NE, y, z), q) == Bool(!rel(OpEq, a, b))
    && Eval(rel, Compare(LT, y, z), q) == Bool(rel(OpLt, a, b))
    && Eval(rel, Compare(LE, y, z), q) == Bool(rel(OpLe, a, b))
    && Eval(rel, Compare(GT, y, z), q) == Bool(rel(OpLt, b, a))
    && Eval(rel, Compare(GE, y, z), q) == Bool(rel(OpLe, b, a))
  }

  lemma ComparisonValues(rel: Relation, y: Expr, z: Expr, q: Regs)
    ensures EvaluatesComparisons(rel, y, z, q)
  {
  }

  // The six comparisons, in terms of the three the virtual machine has.
  method Comparisons(params: nat, y: Expr, z: Expr, v: nat, ghost rel: Relation)
    returns (ok: bool, cy: Chunk, cz: Chunk, eq: Chunk, ne: Chunk, lt: Chunk, le: Chunk, gt: Chunk, ge: Chunk)
    requires v < params < MAXSTACK && LocalsBelow(y, params) && LocalsBelow(z, params)
    ensures y.Local? && ok ==> forall q: Regs {:trigger Left(rel, cy, v, q)} :: Left(rel, cy, v, q) == q[y.r]
    ensures z.Local? && ok ==> forall q: Regs {:trigger Left(rel, cz, v, q)} :: Left(rel, cz, v, q) == q[z.r]
    ensures params + Size(y) + Size(z) + 9 <= 250 ==> ok
    ensures ok && Right(y, false) && Right(z, false) && Right(Compare(EQ, y, z), false) ==>
              forall q: Regs {:trigger Left(rel, cy, v, q)} ::
                var a, b := Left(rel, cy, v, q), Left(rel, cz, v, q);
                && Left(rel, eq, v, q) == Bool(rel(OpEq, a, b))
                && Left(rel, ne, v, q) == Bool(!rel(OpEq, a, b))
                && Left(rel, lt, v, q) == Bool(rel(OpLt, a, b))
                && Left(rel, le, v, q) == Bool(rel(OpLe, a, b))
                && Left(rel, gt, v, q) == Bool(rel(OpLt, b, a))
                && Left(rel, ge, v, q) == Bool(rel(OpLe, b, a))
  {
    RightAlike(y, z);
    hide Right, Eval;
    var b0, b1, b2, b3, b4, b5, b6, b7;
    b0, cy := Compiled(params, y, v, rel);
    b1, cz := Compiled(params, z, v, rel);
    b2, eq := Compiled(params, Compare(EQ, y, z), v, rel);
    b3, ne := Compiled(params, Compare(NE, y, z), v, rel);
    b4, lt := Compiled(params, Compare(LT, y, z), v, rel);
    b5, le := Compiled(params, Compare(LE, y, z), v, rel);
    b6, gt := Compiled(params, Compare(GT, y, z), v, rel);
    b7, ge := Compiled(params, Compare(GE, y, z), v, rel);
    ok := b0 && b1 && b2 && b3 && b4 && b5 && b6 && b7;
    forall q: Regs {:trigger Left(rel, cy, v, q)} ensures EvaluatesComparisons(rel, y, z, q) {
      ComparisonValues(rel, y, z, q);
    }
  }

  // Exchanging the operands: `>` is `<` and `>=` is `<=`; `~=` is the opposite of `==`.
  method Exchanged(params: nat, y: Expr, z: Expr, v: nat, ghost rel: Relation)
    returns (ok: bool, gt: Chunk, lt: Chunk, ge: Chunk, le: Chunk, ne: Chunk, eq: Chunk)
    requires v < params < MAXSTACK && LocalsBelow(y, params) && LocalsBelow(z, params)
    ensures params + Size(y) + Size(z) + 9 <= 250 ==> ok
    ensures ok && Right(Compare(EQ, y, z), false) && Right(Compare(EQ, z, y), false) ==>
              forall q: Regs {:trigger Left(rel, gt, v, q)} ::
                && Left(rel, gt, v, q) == Left(rel, lt, v, q)
                && Left(rel, ge, v, q) == Left(rel, le, v, q)
                && Left(rel, ne, v, q) == (if Left(rel, eq, v, q) == Bool(true) then Bool(false) else Bool(true))
  {
    RightAlike(y, z);
    RightAlike(z, y);
    hide Right, Eval;
    var b0, b1, b2, b3, b4, b5;
    b0, gt := Compiled(params, Compare(GT, y, z), v, rel);
    b1, lt := Compiled(params, Compare(LT, z, y), v, rel);
    b2, ge := Compiled(params, Compare(GE, y, z), v, rel);
    b3, le := Compiled(params, Compare(LE, z, y), v, rel);
    b4, ne := Compiled(params, Compare(NE, y, z), v, rel);
    b5, eq := Compiled(params, Compare(EQ, y, z), v, rel);
    ok := b0 && b1 && b2 && b3 && b4 && b5;
    if ok && Right(Compare(EQ, y, z), false) && Right(Compare(EQ, z, y), false) {
      forall q: Regs {:trigger Left(rel, gt, v, q)}
        ensures Left(rel, gt, v, q) == Left(rel, lt, v, q) && Left(rel, ge, v, q) == Left(rel, le, v, q)
        ensures Left(rel, ne, v, q) == (if Left(rel, eq, v, q) == Bool(true) then Bool(false) else Bool(true))
      {
        ComparisonValues(rel, y, z, q);
        ComparisonValues(rel, z, y, q);
        assert Left(rel, eq, v, q) == Bool(rel(OpEq, Eval(rel, y, q), Eval(rel, z, q)));
      }
    }
  }

  // Comparisons of two locals that hold numbers.
  method ComparedNumbers(params: nat, p1: nat, p2: nat, v: nat, ghost rel: Relation)
    returns (ok: bool, eq: Chunk, ne: Chunk, lt: Chunk, le: Chunk, gt: Chunk, ge: Chunk)
    requires v < params < MAXSTACK && p1 < params && p2 < params
    ensures params <= 239 ==> ok
    ensures ok && (forall m, n {:trigger Number(m), Number(n)} ::
              && rel(OpEq, Number(m), Number(n)) == (m == n)
              && rel(OpLt, Number(m), Number(n)) == (m < n)
              && rel(OpLe, Number(m), Number(n)) == (m <= n)) ==>
              forall q: Regs, m: real, n: real {:trigger Left(rel, eq, v, q), Number(m), Number(n)} ::
                q[p1] == Number(m) && q[p2] == Number(n) ==>
                  && Left(rel, eq, v, q) == Bool(m == n)
                  && Left(rel, ne, v, q) == Bool(m != n)
                  && Left(rel, lt, v, q) == Bool(m < n)
                  && Left(rel, le, v, q) == Bool(m <= n)
                  && Left(rel, gt, v, q) == Bool(m > n)
                  && Left(rel, ge, v, q) == Bool(m >= n)
  {
    var y, z := Local(p1), Local(p2);
    var cy, cz;
    ok, cy, cz, eq, ne, lt, le, gt, ge := Comparisons(params, y, z, v, rel);
    assert Usual(y) && Usual(z);
    UsualRight(y, false);
    UsualRight(z, false);
    UsualRight(Compare(EQ, y, z), false);
    forall q: Regs {:trigger Left(rel, eq, v, q)}
      ensures ok ==> Left(rel, cy, v, q) == q[p1] && Left(rel, cz, v, q) == q[p2]
    {
    }
  }
}
