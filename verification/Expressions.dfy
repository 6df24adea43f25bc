// Boolean and relational expressions: their value, what the code emitted for
// them does, and exactly when the two agree.
module Expressions {
  import opened LuaValues
  import opened Bytecode

  datatype RelOp = NE | EQ | LT | LE | GT | GE

  datatype Expr =
    | Local(r: nat)
    | True
    | False
    | Num(n: real)
    | Str(s: string)
    | Not(x: Expr)
    | And(x: Expr, y: Expr)
    | Or(x: Expr, y: Expr)
    | Compare(op: RelOp, x: Expr, y: Expr)

  predicate IsLeaf(x: Expr) { x.Local? || x.True? || x.False? || x.Num? || x.Str? }

  // Locals, literals and operators.
  function Size(x: Expr): (n: nat)
    ensures n >= 1
  {
    match x
    case Not(y) => 1 + Size(y)
    case And(y, z) => 1 + Size(y) + Size(z)
    case Or(y, z) => 1 + Size(y) + Size(z)
    case Compare(_, y, z) => 1 + Size(y) + Size(z)
    case _ => 1
  }

  function Locals(x: Expr): set<nat> {
    match x
    case Local(q) => {q}
    case Not(y) => Locals(y)
    case And(y, z) => Locals(y) + Locals(z)
    case Or(y, z) => Locals(y) + Locals(z)
    case Compare(_, y, z) => Locals(y) + Locals(z)
    case _ => {}
  }

  predicate LocalsBelow(x: Expr, n: nat) {
    match x
    case Local(q) => q < n
    case Not(y) => LocalsBelow(y, n)
    case And(y, z) => LocalsBelow(y, n) && LocalsBelow(z, n)
    case Or(y, z) => LocalsBelow(y, n) && LocalsBelow(z, n)
    case Compare(_, y, z) => LocalsBelow(y, n) && LocalsBelow(z, n)
    case _ => true
  }

  lemma {:induction false} LocalsBelowMore(x: Expr, n: nat, m: nat)
    requires LocalsBelow(x, n) && n <= m
    ensures LocalsBelow(x, m)
  {
    match x
    case Not(y) => LocalsBelowMore(y, n, m);
    case And(y, z) => LocalsBelowMore(y, n, m); LocalsBelowMore(z, n, m);
    case Or(y, z) => LocalsBelowMore(y, n, m); LocalsBelowMore(z, n, m);
    case Compare(_, y, z) => LocalsBelowMore(y, n, m); LocalsBelowMore(z, n, m);
    case _ =>
  }

  lemma {:induction false} BelowAll(x: Expr, n: nat)
    requires LocalsBelow(x, n)
    ensures forall q :: q in Locals(x) ==> q < n
  {
    match x
    case Not(y) => BelowAll(y, n);
    case And(y, z) => BelowAll(y, n); BelowAll(z, n);
    case Or(y, z) => BelowAll(y, n); BelowAll(z, n);
    case Compare(_, y, z) => BelowAll(y, n); BelowAll(z, n);
    case _ =>
  }

  // ---------- the value of an expression ----------

  ghost predicate Holds(rel: Relation, op: RelOp, v: Value, w: Value) {
    match op
    case EQ => rel(OpEq, v, w)
    case NE => !rel(OpEq, v, w)
    case LT => rel(OpLt, v, w)
    case LE => rel(OpLe, v, w)
    case GT => rel(OpLt, w, v)
    case GE => rel(OpLe, w, v)
  }

  ghost function LeafValue(x: Expr, r: Regs): Value {
    match x
    case Local(q) => if q < 256 then r[q] else Nil
    case True => Bool(true)
    case False => Bool(false)
    case Num(n) => Number(n)
    case Str(s) => LuaValues.Str(s)
    case _ => Nil
  }

  // Short-circuit evaluation over the registers that hold the locals.
  ghost function Eval(rel: Relation, x: Expr, r: Regs): Value {
    match x
    case Not(y) => Bool(IsFalse(Eval(rel, y, r)))
    case And(y, z) => var v := Eval(rel, y, r); if IsFalse(v) then v else Eval(rel, z, r)
    case Or(y, z) => var v := Eval(rel, y, r); if IsFalse(v) then Eval(rel, z, r) else v
    case Compare(op, y, z) => Bool(Holds(rel, op, Eval(rel, y, r), Eval(rel, z, r)))
    case _ => LeafValue(x, r)
  }

  // ---------- what the emitted code does ----------

  // What an expression ends in: a literal, a local, or a test (a comparison or a `not`).
  datatype Literal = LTrue | LFalse | LConst | LLocal | LTest

  function Lit(x: Expr): Literal {
    match x
    case Local(_) => LLocal
    case True => LTrue
    case False => LFalse
    case Num(_) => LConst
    case Str(_) => LConst
    case Not(y) => if Lit(y).LFalse? then LTrue else if Lit(y).LLocal? || Lit(y).LTest? then LTest else LFalse
    case And(_, z) => Lit(z)
    case Or(_, z) => Lit(z)
    case Compare(_, _, _) => LTest
  }

  // The test that leaves when the truth is b needs no jump, or an unconditional one.
  predicate Skips(lit: Literal, b: bool) {
    if b then lit.LFalse? else lit.LTrue? || lit.LConst?
  }

  predicate JumpsAlways(lit: Literal, b: bool) {
    if b then lit.LTrue? else lit.LFalse?
  }

  // A jump may bring the value that the TESTSET in front of it tests.
  datatype Carry = Nothing | Carries(v: Value)

  // How the code of an expression is left: at its end, where the value is still
  // to be taken from its tail, or by an exit of truth b.
  datatype Way = Through(carry: Carry, tail: Value) | Exit(b: bool, carry: Carry) {
    function Result(): Value {
      match this
      case Through(_, v) => v
      case Exit(b, Nothing) => Bool(b)
      case Exit(_, Carries(v)) => v
    }
  }

  // A test leaves or goes on.
  datatype Turn = Leave(carry: Carry) | GoOn(carry: Carry)

  // A literal takes over the jump that led to it, with what it carries.
  ghost function TurnOf(lit: Literal, w: Way, b: bool): Turn {
    match w
    case Exit(b', c) => if b' == b then Leave(c) else GoOn(c)
    case Through(c, v) =>
      if IsFalse(v) != b then
        Leave(if JumpsAlways(lit, b) then c else if lit.LLocal? || lit.LConst? then Carries(v) else Nothing)
      else GoOn(if Skips(lit, b) then c else Nothing)
  }

  // An expression as it was compiled: kept tells of a comparison that no code was
  // emitted to bring its first operand into place.
  datatype Term =
    | Leaf(x: Expr)
    | NotOf(y: Term)
    | AndOf(y: Term, z: Term)
    | OrOf(y: Term, z: Term)
    | CompareOf(op: RelOp, y: Term, z: Term, kept: bool)

  function Source(t: Term): Expr {
    match t
    case Leaf(x) => x
    case NotOf(y) => Expr.Not(Source(y))
    case AndOf(y, z) => And(Source(y), Source(z))
    case OrOf(y, z) => Or(Source(y), Source(z))
    case CompareOf(op, y, z, _) => Compare(op, Source(y), Source(z))
  }

  predicate LeavesOnly(t: Term) {
    match t
    case Leaf(x) => IsLeaf(x)
    case NotOf(y) => LeavesOnly(y)
    case AndOf(y, z) => LeavesOnly(y) && LeavesOnly(z)
    case OrOf(y, z) => LeavesOnly(y) && LeavesOnly(z)
    case CompareOf(_, y, z, _) => LeavesOnly(y) && LeavesOnly(z)
  }

  // The way through the code of t, entered by a jump that carries c.
  ghost function Course(rel: Relation, t: Term, r: Regs, c: Carry): Way {
    match t
    case Leaf(x) => Through(c, LeafValue(x, r))
    case NotOf(y) =>
      (match Course(rel, y, r, c)
       case Through(d, v) =>
         Through(if Lit(Source(y)).LLocal? || Lit(Source(y)).LTest? then Nothing else d, Bool(IsFalse(v)))
       case Exit(b, _) => Exit(!b, Nothing))
    case AndOf(y, z) =>
      (match TurnOf(Lit(Source(y)), Course(rel, y, r, c), false)
       case Leave(d) => Exit(false, d)
       case GoOn(d) => Course(rel, z, r, d))
    case OrOf(y, z) =>
      (match TurnOf(Lit(Source(y)), Course(rel, y, r, c), true)
       case Leave(d) => Exit(true, d)
       case GoOn(d) => Course(rel, z, r, d))
    case CompareOf(op, y, z, kept) =>
      var w := Course(rel, y, r, c);
      var d := if kept && w.Through? then w.carry else Nothing;
      Through(Nothing, Bool(Holds(rel, op, w.Result(), Course(rel, z, r, d).Result())))
  }

  // The value the emitted code leaves.
  ghost function Emitted(rel: Relation, t: Term, r: Regs): Value {
    Course(rel, t, r, Nothing).Result()
  }

  lemma {:induction false} CourseDependsOnLocals(rel: Relation, t: Term, r: Regs, r': Regs, c: Carry)
    requires LeavesOnly(t) && forall q :: q in Locals(Source(t)) && q < 256 ==> r[q] == r'[q]
    ensures Course(rel, t, r, c) == Course(rel, t, r', c)
  {
    match t
    case Leaf(x) =>
    case NotOf(y) => CourseDependsOnLocals(rel, y, r, r', c);
    case AndOf(y, z) =>
      CourseDependsOnLocals(rel, y, r, r', c);
      var d := TurnOf(Lit(Source(y)), Course(rel, y, r, c), false);
      CourseDependsOnLocals(rel, z, r, r', d.carry);
    case OrOf(y, z) =>
      CourseDependsOnLocals(rel, y, r, r', c);
      var d := TurnOf(Lit(Source(y)), Course(rel, y, r, c), true);
      CourseDependsOnLocals(rel, z, r, r', d.carry);
    case CompareOf(_, y, z, kept) =>
      CourseDependsOnLocals(rel, y, r, r', c);
      var w := Course(rel, y, r, c);
      CourseDependsOnLocals(rel, z, r, r', if kept && w.Through? then w.carry else Nothing);
  }

  lemma {:induction false} EvalDependsOnLocals(rel: Relation, x: Expr, r: Regs, r': Regs)
    requires forall q :: q in Locals(x) && q < 256 ==> r[q] == r'[q]
    ensures Eval(rel, x, r) == Eval(rel, x, r')
  {
    match x
    case Not(y) => EvalDependsOnLocals(rel, y, r, r');
    case And(y, z) => EvalDependsOnLocals(rel, y, r, r'); EvalDependsOnLocals(rel, z, r, r');
    case Or(y, z) => EvalDependsOnLocals(rel, y, r, r'); EvalDependsOnLocals(rel, z, r, r');
    case Compare(_, y, z) => EvalDependsOnLocals(rel, y, r, r'); EvalDependsOnLocals(rel, z, r, r');
    case _ =>
  }

  // ---------- when the two agree ----------

  // What an exit brings: its truth alone, the value of the expression, or a
  // value that a literal took over.
  datatype Mark = Truth | Own | Foreign

  // A way without its values; carried tells whether the jumps aimed at the end bring a value.
  datatype Path = End(carried: bool) | Out(b: bool, mark: Mark)

  datatype Fork = Off(mark: Mark) | On(carried: bool)

  predicate CanBe(lit: Literal, b: bool) {
    lit.LLocal? || lit.LTest? || (if b then lit.LTrue? || lit.LConst? else lit.LFalse?)
  }

  function MarkOf(lit: Literal, b: bool, carried: bool): Mark {
    if JumpsAlways(lit, b) then (if carried then Foreign else Truth)
    else if lit.LLocal? || lit.LConst? then Own
    else Truth
  }

  // Where a test that leaves on b may lead.
  function Forks(lit: Literal, p: Path, b: bool): set<Fork> {
    match p
    case Out(b', m) => if b' == b then {Off(m)} else {On(!m.Truth?)}
    case End(c) =>
      (if CanBe(lit, b) then {Off(MarkOf(lit, b, c))} else {})
      + (if CanBe(lit, !b) then {On(Skips(lit, b) && c)} else {})
  }

  function AllForks(lit: Literal, ps: set<Path>, b: bool): set<Fork> {
    set p, f | p in ps && f in Forks(lit, p, b) :: f
  }

  // The ways of two operands in a row, the first one tested.
  function Joined(fs: set<Fork>, b: bool, plain: set<Path>, carried: set<Path>): set<Path> {
    (set f | f in fs && f.Off? :: Out(b, f.mark))
    + (if On(false) in fs then plain else {}) + (if On(true) in fs then carried else {})
  }

  function Negated(lit: Literal, p: Path): Path {
    match p
    case End(c) => End(if lit.LLocal? || lit.LTest? then false else c)
    case Out(b, _) => Out(!b, Truth)
  }

  // All ways through the code of x, entered by jumps that carry values or not.
  function Paths(x: Expr, carried: bool): set<Path> {
    match x
    case Not(y) => set p | p in Paths(y, carried) :: Negated(Lit(y), p)
    case And(y, z) => Joined(AllForks(Lit(y), Paths(y, carried), false), false, Paths(z, false), Paths(z, true))
    case Or(y, z) => Joined(AllForks(Lit(y), Paths(y, carried), true), true, Paths(z, false), Paths(z, true))
    case Compare(_, _, _) => {End(false)}
    case _ => {End(carried)}
  }

  lemma LeavesAnd(y: Expr, z: Expr, carried: bool, p: Path, m: Mark)
    requires p in Paths(y, carried) && Off(m) in Forks(Lit(y), p, false)
    ensures Out(false, m) in Paths(And(y, z), carried)
  {
    assert Off(m) in AllForks(Lit(y), Paths(y, carried), false);
  }

  lemma GoesOnOr(y: Expr, z: Expr, carried: bool, p: Path, c: bool, q: Path)
    requires p in Paths(y, carried) && On(c) in Forks(Lit(y), p, true) && q in Paths(z, c)
    ensures q in Paths(Or(y, z), carried)
  {
    assert On(c) in AllForks(Lit(y), Paths(y, carried), true);
  }

  // The operands of all comparisons get their values.
  predicate OperandsRight(x: Expr, carried: bool)
    decreases x, 0
  {
    match x
    case Not(y) => OperandsRight(y, carried)
    case And(y, z) =>
      var fs := AllForks(Lit(y), Paths(y, carried), false);
      OperandsRight(y, carried) && (On(false) in fs ==> OperandsRight(z, false))
        && (On(true) in fs ==> OperandsRight(z, true))
    case Or(y, z) =>
      var fs := AllForks(Lit(y), Paths(y, carried), true);
      OperandsRight(y, carried) && (On(false) in fs ==> OperandsRight(z, false))
        && (On(true) in fs ==> OperandsRight(z, true))
    case Compare(_, y, z) =>
      Right(y, carried) && Right(z, false) && (End(true) in Paths(y, carried) ==> Right(z, true))
    case _ => true
  }

  // No exit brings a value that a literal took over.
  predicate Right(x: Expr, carried: bool)
    decreases x, 1
  {
    OperandsRight(x, carried) && Out(true, Foreign) !in Paths(x, carried) && Out(false, Foreign) !in Paths(x, carried)
  }

  // The way w is one of the paths ps, and does right by the value v except for
  // bringing a value that a literal took over.
  ghost predicate Follows(w: Way, ps: set<Path>, v: Value) {
    match w
    case Through(c, u) => u == v && End(c.Carries?) in ps
    case Exit(b, Nothing) => v == Bool(b) && Out(b, Truth) in ps
    case Exit(b, Carries(u)) =>
      (IsFalse(v) != b) && ((u == v && Out(b, Own) in ps) || Out(b, Foreign) in ps)
  }

  // The tail value is as the literal it ends in says.
  ghost predicate Fitting(lit: Literal, v: Value) {
    match lit
    case LTrue => v == Bool(true)
    case LFalse => v == Bool(false)
    case LConst => v.Number? || v.Str?
    case LTest => v.Bool?
    case LLocal => true
  }

  lemma {:induction false} TailFits(rel: Relation, t: Term, r: Regs, c: Carry)
    requires LeavesOnly(t)
    ensures var w := Course(rel, t, r, c); w.Through? ==> Fitting(Lit(Source(t)), w.tail)
  {
    match t
    case Leaf(x) =>
    case NotOf(y) => TailFits(rel, y, r, c);
    case AndOf(y, z) => TailFits(rel, z, r, TurnOf(Lit(Source(y)), Course(rel, y, r, c), false).carry);
    case OrOf(y, z) => TailFits(rel, z, r, TurnOf(Lit(Source(y)), Course(rel, y, r, c), true).carry);
    case CompareOf(_, _, _, _) =>
  }

  ghost predicate TurnFollows(tn: Turn, fs: set<Fork>, v: Value, b: bool) {
    match tn
    case GoOn(c) => IsFalse(v) == b && On(c.Carries?) in fs
    case Leave(Nothing) => v == Bool(b) && Off(Truth) in fs
    case Leave(Carries(u)) => IsFalse(v) != b && ((u == v && Off(Own) in fs) || Off(Foreign) in fs)
  }

  lemma ForkFollows(lit: Literal, w: Way, ps: set<Path>, v: Value, b: bool)
    requires Follows(w, ps, v) && (w.Through? ==> Fitting(lit, w.tail))
    ensures TurnFollows(TurnOf(lit, w, b), AllForks(lit, ps, b), v, b)
  {
    var fs := AllForks(lit, ps, b);
    match w
    case Through(c, u) =>
      assert forall f :: f in Forks(lit, End(c.Carries?), b) ==> f in fs;
    case Exit(b', Nothing) =>
      assert forall f :: f in Forks(lit, Out(b', Truth), b) ==> f in fs;
    case Exit(b', Carries(u)) =>
      assert Out(b', Own) in ps ==> forall f :: f in Forks(lit, Out(b', Own), b) ==> f in fs;
      assert Out(b', Foreign) in ps ==> forall f :: f in Forks(lit, Out(b', Foreign), b) ==> f in fs;
  }

  lemma JoinFollows(tn: Turn, fs: set<Fork>, v: Value, b: bool, w: Way, u: Value, plain: set<Path>, carried: set<Path>)
    requires TurnFollows(tn, fs, v, b)
    requires tn.GoOn? ==> Follows(w, if tn.carry.Carries? then carried else plain, u)
    ensures var w' := if tn.Leave? then Exit(b, tn.carry) else w;
            Follows(w', Joined(fs, b, plain, carried), if IsFalse(v) == b then u else v)
  {
    var ps := Joined(fs, b, plain, carried);
    assert forall m :: Off(m) in fs ==> Out(b, m) in ps;
    assert On(false) in fs ==> plain <= ps;
    assert On(true) in fs ==> carried <= ps;
  }

  lemma NotFollows(lit: Literal, w: Way, w': Way, ps: set<Path>, v: Value)
    requires Follows(w, ps, v)
    requires w' == match w
                   case Through(d, u) => Through(if lit.LLocal? || lit.LTest? then Nothing else d, Bool(IsFalse(u)))
                   case Exit(b, _) => Exit(!b, Nothing)
    ensures Follows(w', set p | p in ps :: Negated(lit, p), Bool(IsFalse(v)))
  {
    var ps' := set p | p in ps :: Negated(lit, p);
    assert forall p :: p in ps ==> Negated(lit, p) in ps';
    match w
    case Through(d, _) => assert Negated(lit, End(d.Carries?)) in ps';
    case Exit(b, Nothing) => assert Negated(lit, Out(b, Truth)) in ps';
    case Exit(b, Carries(_)) =>
      assert Out(b, Own) in ps ==> Negated(lit, Out(b, Own)) in ps';
      assert Out(b, Foreign) in ps ==> Negated(lit, Out(b, Foreign)) in ps';
  }

  // With right operands of comparisons, a way brings the value of the expression
  // unless it brings one that a literal took over.
  lemma {:induction false} CourseFollows(rel: Relation, t: Term, r: Regs, c: Carry)
    requires LeavesOnly(t) && OperandsRight(Source(t), c.Carries?)
    ensures Follows(Course(rel, t, r, c), Paths(Source(t), c.Carries?), Eval(rel, Source(t), r))
    decreases t, 1
  {
    hide Follows, TurnFollows, Joined, AllForks, TurnOf;
    var k := c.Carries?;
    match t
    case Leaf(x) => LeafFollows(rel, x, r, c);
    case NotOf(y) =>
      CourseFollows(rel, y, r, c);
      NotFollows(Lit(Source(y)), Course(rel, y, r, c), Course(rel, t, r, c), Paths(Source(y), k),
        Eval(rel, Source(y), r));
    case AndOf(y, z) => PairFollows(rel, t, y, z, r, c, false);
    case OrOf(y, z) => PairFollows(rel, t, y, z, r, c, true);
    case CompareOf(op, y, z, kept) =>
      CourseRight(rel, y, r, c);
      var w := Course(rel, y, r, c);
      var d := if kept && w.Through? then w.carry else Nothing;
      CarriesOn(rel, y, r, c);
      CourseRight(rel, z, r, d);
      ThroughFollows(Bool(Holds(rel, op, w.Result(), Course(rel, z, r, d).Result())));
  }

  lemma LeafFollows(rel: Relation, x: Expr, r: Regs, c: Carry)
    requires IsLeaf(x)
    ensures Follows(Through(c, LeafValue(x, r)), Paths(x, c.Carries?), Eval(rel, x, r))
  {
  }

  lemma ThroughFollows(v: Value)
    ensures Follows(Through(Nothing, v), {End(false)}, v)
  {
  }

  lemma CarriesOn(rel: Relation, y: Term, r: Regs, c: Carry)
    requires Follows(Course(rel, y, r, c), Paths(Source(y), c.Carries?), Eval(rel, Source(y), r))
    ensures var w := Course(rel, y, r, c); w.Through? && w.carry.Carries? ==> End(true) in Paths(Source(y), c.Carries?)
  {
  }

  lemma {:induction false} PairFollows(rel: Relation, t: Term, y: Term, z: Term, r: Regs, c: Carry, b: bool)
    requires t == (if b then OrOf(y, z) else AndOf(y, z)) && LeavesOnly(t) && OperandsRight(Source(t), c.Carries?)
    ensures Follows(Course(rel, t, r, c), Paths(Source(t), c.Carries?), Eval(rel, Source(t), r))
    decreases t, 0
  {
    hide Follows, Joined, AllForks, TurnOf;
    var lit, ps := Lit(Source(y)), Paths(Source(y), c.Carries?);
    var w, v := Course(rel, y, r, c), Eval(rel, Source(y), r);
    CourseFollows(rel, y, r, c);
    TailFits(rel, y, r, c);
    ForkFollows(lit, w, ps, v, b);
    var tn, fs := TurnOf(lit, w, b), AllForks(lit, ps, b);
    if tn.GoOn? { CourseFollows(rel, z, r, tn.carry); }
    JoinFollows(tn, fs, v, b, Course(rel, z, r, tn.carry), Eval(rel, Source(z), r), Paths(Source(z), false),
      Paths(Source(z), true));
  }

  // The emitted code leaves the value of every expression that is right.
  lemma {:induction false} CourseRight(rel: Relation, t: Term, r: Regs, c: Carry)
    requires LeavesOnly(t) && Right(Source(t), c.Carries?)
    ensures Course(rel, t, r, c).Result() == Eval(rel, Source(t), r)
    ensures Follows(Course(rel, t, r, c), Paths(Source(t), c.Carries?), Eval(rel, Source(t), r))
    decreases t, 2
  {
    CourseFollows(rel, t, r, c);
  }

  // ---------- where every path can be taken ----------

  // No local is read twice, and a comparison compares a local with a local or a literal.
  predicate ReadOnce(x: Expr) {
    match x
    case Not(y) => ReadOnce(y)
    case And(y, z) => ReadOnce(y) && ReadOnce(z) && Locals(y) !! Locals(z)
    case Or(y, z) => ReadOnce(y) && ReadOnce(z) && Locals(y) !! Locals(z)
    case Compare(_, y, z) => IsLeaf(y) && IsLeaf(z) && (y.Local? || z.Local?) && Locals(y) !! Locals(z)
    case _ => true
  }

  // A relation that every comparison with a local can be made to meet or not.
  ghost function NilRelation(): Relation { (op: CmpOp, v: Value, w: Value) => v.Nil? || w.Nil? }

  // The registers hold nil or an object.
  ghost predicate Sided(r: Regs) { forall q :: 0 <= q < 256 ==> r[q].Nil? || r[q] == Object(0) }

  ghost function Merged(r1: Regs, r2: Regs, xs: set<nat>): Regs {
    seq(256, q requires 0 <= q < 256 => if q in xs then r1[q] else r2[q])
  }

  // The way w takes path p: the tail has truth tb, and no value brought is a boolean.
  ghost predicate Takes(w: Way, p: Path, tb: bool, v: Value) {
    match p
    case End(k) => w.Through? && w.carry.Carries? == k && (k ==> !w.carry.v.Bool?) && IsFalse(w.tail) != tb
    case Out(b, Truth) => w == Exit(b, Nothing)
    case Out(b, m) => w.Exit? && w.b == b && w.carry.Carries? && !w.carry.v.Bool? && (m.Foreign? ==> v == Bool(b))
  }

  lemma {:induction false} ReadOnceRight(x: Expr, carried: bool)
    requires ReadOnce(x)
    ensures OperandsRight(x, carried)
  {
    match x
    case Not(y) => ReadOnceRight(y, carried);
    case And(y, z) => ReadOnceRight(y, carried); ReadOnceRight(z, false); ReadOnceRight(z, true);
    case Or(y, z) => ReadOnceRight(y, carried); ReadOnceRight(z, false); ReadOnceRight(z, true);
    case _ =>
  }

  // A local that makes a test as asked.
  ghost function Side(tb: bool): Regs { seq(256, q requires 0 <= q < 256 => if tb then Object(0) else Nil) }

  lemma {:induction false} SidedTail(rel: Relation, t: Term, r: Regs, c: Carry)
    requires LeavesOnly(t) && LocalsBelow(Source(t), 256) && Sided(r)
    ensures var w := Course(rel, t, r, c); w.Through? && (Lit(Source(t)).LLocal? || Lit(Source(t)).LConst?) ==>
              !w.tail.Bool?
  {
    match t
    case AndOf(y, z) => SidedTail(rel, z, r, TurnOf(Lit(Source(y)), Course(rel, y, r, c), false).carry);
    case OrOf(y, z) => SidedTail(rel, z, r, TurnOf(Lit(Source(y)), Course(rel, y, r, c), true).carry);
    case _ =>
  }

  // For every path there are registers with which it is taken.
  lemma {:induction false} Reach(t: Term, c: Carry, p: Path, tb: bool) returns (r: Regs)
    requires LeavesOnly(t) && ReadOnce(Source(t)) && LocalsBelow(Source(t), 256) && (c.Carries? ==> !c.v.Bool?)
    requires p in Paths(Source(t), c.Carries?) && CanBe(Lit(Source(t)), tb)
    ensures Sided(r)
    ensures Takes(Course(NilRelation(), t, r, c), p, tb, Eval(NilRelation(), Source(t), r))
    decreases t, 1
  {
    match t
    case Leaf(x) =>
      r := Side(tb);
    case NotOf(y) =>
      var q :| q in Paths(Source(y), c.Carries?) && p == Negated(Lit(Source(y)), q);
      r := Reach(y, c, q, !tb);
    case AndOf(y, z) =>
      r := ReachPair(t, y, z, c, p, tb, false);
    case OrOf(y, z) =>
      r := ReachPair(t, y, z, c, p, tb, true);
    case CompareOf(op, y, z, _) =>
      r := ReachComparison(op, Source(y), Source(z), tb);
      assert y.Leaf? && z.Leaf?;
  }

  lemma ReachComparison(op: RelOp, y: Expr, z: Expr, tb: bool) returns (r: Regs)
    requires ReadOnce(Compare(op, y, z)) && LocalsBelow(Compare(op, y, z), 256)
    ensures Sided(r) && Holds(NilRelation(), op, LeafValue(y, r), LeafValue(z, r)) == tb
  {
    r := Side(tb == op.NE?);
  }

  // The test after y takes fork f.
  ghost predicate TakesFork(y: Term, r: Regs, c: Carry, b: bool, f: Fork) {
    var tn := TurnOf(Lit(Source(y)), Course(NilRelation(), y, r, c), b);
    var v := Eval(NilRelation(), Source(y), r);
    match f
    case On(k) => tn.GoOn? && tn.carry.Carries? == k && (k ==> !tn.carry.v.Bool?) && IsFalse(v) == b
    case Off(Truth) => tn == Leave(Nothing) && IsFalse(v) != b
    case Off(m) =>
      && tn.Leave? && tn.carry.Carries? && !tn.carry.v.Bool? && IsFalse(v) != b
      && (m.Foreign? ==> v == Bool(b))
  }

  lemma ForkTaken(y: Term, r: Regs, c: Carry, p: Path, tb: bool, b: bool, f: Fork)
    requires LeavesOnly(y) && ReadOnce(Source(y)) && LocalsBelow(Source(y), 256) && Sided(r)
    requires f in Forks(Lit(Source(y)), p, b) && (p.End? ==> tb == if f.Off? then b else !b)
    requires Takes(Course(NilRelation(), y, r, c), p, tb, Eval(NilRelation(), Source(y), r))
    ensures TakesFork(y, r, c, b, f)
  {
    hide Course;
    ReadOnceRight(Source(y), c.Carries?);
    CourseFollows(NilRelation(), y, r, c);
    TailFits(NilRelation(), y, r, c);
    SidedTail(NilRelation(), y, r, c);
  }

  lemma {:induction false} ReachPair(t: Term, y: Term, z: Term, c: Carry, p: Path, tb: bool, b: bool) returns (r: Regs)
    requires t == (if b then OrOf(y, z) else AndOf(y, z)) && LeavesOnly(t)
    requires ReadOnce(Source(t)) && LocalsBelow(Source(t), 256) && (c.Carries? ==> !c.v.Bool?)
    requires p in Paths(Source(t), c.Carries?) && CanBe(Lit(Source(t)), tb)
    ensures Sided(r)
    ensures Takes(Course(NilRelation(), t, r, c), p, tb, Eval(NilRelation(), Source(t), r))
    decreases t, 0
  {
    hide Takes, TurnOf, Forks, Sided, NilRelation, IsLeaf, Course, Locals;
    var lit, ps := Lit(Source(y)), Paths(Source(y), c.Carries?);
    var fs := AllForks(lit, ps, b);
    if f :| f in fs && f.Off? && p == Out(b, f.mark) {
      var q :| q in ps && f in Forks(lit, q, b);
      var truth := TruthFor(lit, q, f, b);
      r := Reach(y, c, q, truth);
      ForkTaken(y, r, c, q, truth, b, f);
      TakesOff(t, y, z, r, c, b, f.mark, tb);
    } else {
      var k := On(true) in fs && p in Paths(Source(z), true);
      var q :| q in ps && On(k) in Forks(lit, q, b);
      var truth := TruthFor(lit, q, On(k), b);
      var r1 := Reach(y, c, q, truth);
      ForkTaken(y, r1, c, q, truth, b, On(k));
      var d := TurnOf(lit, Course(NilRelation(), y, r1, c), b).carry;
      var r2 := Reach(z, d, p, tb);
      r := Merged(r1, r2, Locals(Source(y)));
      MergedSides(r1, r2, Locals(Source(y)));
      TakesOn(t, y, z, r1, r2, r, c, b, p, tb);
    }
  }

  // The truth of the tail with which a test takes a fork.
  lemma TruthFor(lit: Literal, p: Path, f: Fork, b: bool) returns (tb: bool)
    requires f in Forks(lit, p, b)
    ensures CanBe(lit, tb) && (p.End? ==> tb == if f.Off? then b else !b)
  {
    tb := if p.Out? then SomeTruth(lit) else if f.Off? then b else !b;
  }

  lemma MergedSides(r1: Regs, r2: Regs, xs: set<nat>)
    requires Sided(r1) && Sided(r2)
    ensures Sided(Merged(r1, r2, xs))
  {
  }

  lemma TakesOff(t: Term, y: Term, z: Term, r: Regs, c: Carry, b: bool, m: Mark, tb: bool)
    requires t == if b then OrOf(y, z) else AndOf(y, z)
    requires TakesFork(y, r, c, b, Off(m))
    ensures Takes(Course(NilRelation(), t, r, c), Out(b, m), tb, Eval(NilRelation(), Source(t), r))
  {
    hide TurnOf, NilRelation;
  }

  lemma TakesOn(t: Term, y: Term, z: Term, r1: Regs, r2: Regs, r: Regs, c: Carry, b: bool, p: Path, tb: bool)
    requires t == (if b then OrOf(y, z) else AndOf(y, z)) && LeavesOnly(t)
    requires r == Merged(r1, r2, Locals(Source(y))) && Locals(Source(y)) !! Locals(Source(z))
    requires exists k :: TakesFork(y, r1, c, b, On(k))
    requires var d := TurnOf(Lit(Source(y)), Course(NilRelation(), y, r1, c), b).carry;
             Takes(Course(NilRelation(), z, r2, d), p, tb, Eval(NilRelation(), Source(z), r2))
    ensures Takes(Course(NilRelation(), t, r, c), p, tb, Eval(NilRelation(), Source(t), r))
  {
    hide TurnOf, NilRelation, Takes, Lit, Holds;
    var d := TurnOf(Lit(Source(y)), Course(NilRelation(), y, r1, c), b).carry;
    CourseDependsOnLocals(NilRelation(), y, r1, r, c);
    CourseDependsOnLocals(NilRelation(), z, r2, r, d);
    EvalDependsOnLocals(NilRelation(), Source(y), r1, r);
    EvalDependsOnLocals(NilRelation(), Source(z), r2, r);
  }

  function SomeTruth(lit: Literal): (tb: bool)
    ensures CanBe(lit, tb)
  {
    !lit.LFalse?
  }

  // Registers for which the code emitted for an expression that is not right leaves another value.
  lemma Mistaken(t: Term) returns (r: Regs)
    requires LeavesOnly(t) && ReadOnce(Source(t)) && LocalsBelow(Source(t), 256) && !Right(Source(t), false)
    ensures Emitted(NilRelation(), t, r) != Eval(NilRelation(), Source(t), r)
  {
    ReadOnceRight(Source(t), false);
    var lit := Lit(Source(t));
    var b := Out(true, Foreign) in Paths(Source(t), false);
    r := Reach(t, Nothing, Out(b, Foreign), SomeTruth(lit));
  }

  // Where every path can be taken, the emitted code is correct just for the right expressions.
  lemma ExactlyRight(t: Term)
    requires LeavesOnly(t) && ReadOnce(Source(t)) && LocalsBelow(Source(t), 256)
    ensures Right(Source(t), false) <==>
              forall rel, r {:trigger Emitted(rel, t, r)} :: Emitted(rel, t, r) == Eval(rel, Source(t), r)
  {
    if Right(Source(t), false) {
      forall rel, r: Regs ensures Emitted(rel, t, r) == Eval(rel, Source(t), r) { CourseRight(rel, t, r, Nothing); }
    } else {
      var r := Mistaken(t);
      assert Emitted(NilRelation(), t, r) != Eval(NilRelation(), Source(t), r);
    }
  }

  // ---------- expressions that are right ----------

  // Its value is never decided by literals alone.
  predicate Variable(x: Expr) {
    match x
    case Local(_) => true
    case Not(y) => Variable(y)
    case And(y, z) => Variable(y) && Variable(z)
    case Or(y, z) => Variable(y) && Variable(z)
    case Compare(_, y, z) => Usual(y) && Usual(z)
    case _ => false
  }

  // Literals are at most last operands of `and` and `or`.
  predicate Usual(x: Expr) {
    match x
    case Not(y) => Usual(y)
    case And(y, z) => Variable(y) && Usual(z)
    case Or(y, z) => Variable(y) && Usual(z)
    case Compare(_, y, z) => Usual(y) && Usual(z)
    case _ => true
  }

  lemma {:induction false} VariableUsual(x: Expr)
    requires Variable(x)
    ensures Usual(x) && (Lit(x).LLocal? || Lit(x).LTest?)
  {
    match x
    case Not(y) => VariableUsual(y);
    case And(y, z) => VariableUsual(y); VariableUsual(z);
    case Or(y, z) => VariableUsual(y); VariableUsual(z);
    case _ =>
  }

  ghost predicate NothingForeign(ps: set<Path>) { Out(true, Foreign) !in ps && Out(false, Foreign) !in ps }

  lemma JoinedOwn(lit: Literal, ps: set<Path>, b: bool, plain: set<Path>, carried: set<Path>)
    requires NothingForeign(ps) && NothingForeign(plain) && NothingForeign(carried) && (lit.LLocal? || lit.LTest?)
    ensures NothingForeign(Joined(AllForks(lit, ps, b), b, plain, carried))
  {
  }

  // So nothing usual goes wrong, whatever the jumps that lead to it carry.
  lemma {:induction false} UsualRight(x: Expr, carried: bool)
    requires Usual(x)
    ensures Right(x, carried)
  {
    match x
    case Not(y) => UsualRight(y, carried);
    case And(y, z) =>
      VariableUsual(y); UsualRight(y, carried); UsualRight(z, false); UsualRight(z, true);
      JoinedOwn(Lit(y), Paths(y, carried), false, Paths(z, false), Paths(z, true));
    case Or(y, z) =>
      VariableUsual(y); UsualRight(y, carried); UsualRight(z, false); UsualRight(z, true);
      JoinedOwn(Lit(y), Paths(y, carried), true, Paths(z, false), Paths(z, true));
    case Compare(_, y, z) => UsualRight(y, carried); UsualRight(z, false); UsualRight(z, true);
    case _ =>
  }

  // Literals that take nothing over: comparisons and `not` leave without a value.
  lemma TestsLeavePlain(a: nat, b: nat, c: nat, d: nat)
    ensures Right(And(Or(And(Compare(LT, Local(a), Local(b)), Local(c)), False), Local(d)), false)
    ensures Right(And(Or(And(Expr.Not(Local(a)), Local(b)), False), Local(c)), false)
  {
    assert Paths(Expr.Not(Local(a)), false) == {End(false)} by {
      assert Negated(LLocal, End(false)) == End(false) && End(false) in Paths(Local(a), false);
    }
    assert Usual(Local(a)) && Usual(Local(b)) && Usual(Local(c)) && Variable(Local(a)) && Variable(Local(b));
    TestLeavesPlain(Compare(LT, Local(a), Local(b)), c, d);
    TestLeavesPlain(Expr.Not(Local(a)), b, c);
  }

  lemma TestLeavesPlain(y: Expr, b: nat, c: nat)
    requires Paths(y, false) == {End(false)} && Lit(y).LTest? && Usual(y) && Variable(y)
    ensures Right(And(Or(And(y, Local(b)), False), Local(c)), false)
  {
    hide Paths, AllForks, OperandsRight;
    UsualRight(And(y, Local(b)), false);
    PlainExit(y, Local(b));
    TakesNothing(And(y, Local(b)));
    BeforeFalse(And(y, Local(b)));
    LastLocal(Or(And(y, Local(b)), False), Local(c));
  }

  lemma BeforeFalse(y: Expr)
    requires Right(y, false)
    ensures OperandsRight(Or(y, False), false)
  {
  }

  // The literal takes over the value of a false-exit, which `and` would hand on.
  lemma AbsorbsExit(y: Expr, z: Expr)
    requires Out(false, Own) in Paths(y, false)
    ensures !Right(And(Or(y, False), z), false)
  {
    GoesOnOr(y, False, false, Out(false, Own), true, End(true));
    LeavesAnd(Or(y, False), z, false, End(true), Foreign);
  }

  // A value that a literal took over in y only leaves y when false, and `or` goes on then.
  lemma MasksExit(y: Expr, c: nat, d: nat)
    requires OperandsRight(y, false)
    ensures Right(Or(And(y, Local(c)), Local(d)), false)
  {
    OnlyFalseExits(y, c);
    LocalEnds(And(y, Local(c)), d);
  }

  lemma OnlyFalseExits(y: Expr, c: nat)
    requires OperandsRight(y, false)
    ensures OperandsRight(And(y, Local(c)), false)
    ensures forall p :: p in Paths(And(y, Local(c)), false) && p.Out? ==> !p.b
  {
  }

  lemma LocalEnds(x: Expr, d: nat)
    requires OperandsRight(x, false) && Lit(x).LLocal?
    requires forall p :: p in Paths(x, false) && p.Out? ==> !p.b
    ensures Right(Or(x, Local(d)), false)
  {
    NoForeignFork(x);
    hide AllForks, Joined, Forks;
    LocalLast(AllForks(Lit(x), Paths(x, false), true), d);
    assert NothingForeign(Paths(Or(x, Local(d)), false));
    hide Paths;
    assert OperandsRight(Local(d), false) && OperandsRight(Local(d), true);
    assert OperandsRight(Or(x, Local(d)), false);
  }

  lemma NoForeignFork(x: Expr)
    requires Lit(x).LLocal? && forall p :: p in Paths(x, false) && p.Out? ==> !p.b
    ensures Off(Foreign) !in AllForks(Lit(x), Paths(x, false), true)
  {
    hide Paths;
  }

  lemma LocalLast(fs: set<Fork>, d: nat)
    requires Off(Foreign) !in fs
    ensures NothingForeign(Joined(fs, true, Paths(Local(d), false), Paths(Local(d), true)))
  {
  }

  lemma PlainExit(y: Expr, z: Expr)
    requires Paths(y, false) == {End(false)} && Lit(y).LTest? && z.Local?
    ensures forall p :: p in Paths(And(y, z), false) ==> p == End(false) || p == Out(false, Truth)
  {
    assert AllForks(LTest, {End(false)}, false) == Forks(LTest, End(false), false);
  }

  lemma TakesNothing(y: Expr)
    requires forall p :: p in Paths(y, false) ==> p == End(false) || p == Out(false, Truth)
    requires Lit(y).LLocal?
    ensures forall p :: p in Paths(Or(y, False), false) ==> p == End(false) || p == Out(true, Own)
  {
    forall f | f in AllForks(LLocal, Paths(y, false), true) ensures f == Off(Own) || f == On(false) {}
  }

  lemma LastLocal(y: Expr, z: Expr)
    requires (forall p :: p in Paths(y, false) ==> p == End(false) || p == Out(true, Own)) && Lit(y).LFalse? && z.Local?
    requires OperandsRight(y, false)
    ensures Right(And(y, z), false)
  {
    forall f | f in AllForks(LFalse, Paths(y, false), false) ensures f != Off(Foreign) {}
  }
}
