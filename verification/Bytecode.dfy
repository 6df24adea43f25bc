// The instructions that boolean and relational expressions compile to, with
// the meaning the virtual machine gives them, and an executor that also runs
// unfinished code: it stops at every jump whose target is still pending.

module LuaValues {
  datatype Value = Nil | Bool(b: bool) | Number(n: real) | Str(s: string) | Object(id: nat)

  predicate IsFalse(v: Value) {
    v.Nil? || v == Bool(false)
  }
}

module Bytecode {
  import opened LuaValues

  const MAXARG_A: nat := 255
  const MAXARG_BX: nat := 262143
  const MAXARG_SBX: int := 131071
  const NO_REG: nat := MAXARG_A
  const BITRK: nat := 256
  const MAXINDEXRK: nat := BITRK - 1
  const NO_JUMP: int := -1

  type Reg = r: nat | r <= MAXARG_A
  type RK = x: nat | x <= 511
  type Regs = r: seq<Value> | |r| == 256 witness seq(256, i => Nil)

  datatype CmpOp = OpEq | OpLt | OpLe

  // The outcome of `==`, `<` and `<=` on any two values. It is a parameter
  // everywhere: nothing depends on what the comparisons answer.
  type Relation = (CmpOp, Value, Value) -> bool

  datatype Instr =
    | Move(a: Reg, b: Reg)
    | LoadK(a: Reg, bx: nat)
    | LoadBool(a: Reg, v: bool, skip: bool)
    | Not(a: Reg, b: Reg)
    | Jmp(sbx: int)
    | Cmp(op: CmpOp, cond: bool, rb: RK, rc: RK)
    | Test(a: Reg, c: bool)
    | TestSet(a: Reg, b: Reg, c: bool)

  predicate IsTest(ins: Instr) {
    ins.Cmp? || ins.Test? || ins.TestSet?
  }

  function Kst(k: seq<Value>, i: nat): Value {
    if i < |k| then k[i] else Nil
  }

  function RKValue(k: seq<Value>, r: Regs, x: RK): Value {
    if x >= BITRK then Kst(k, x - BITRK) else r[x]
  }

  // NO_REG is not a register: a TESTSET that still carries it stores nothing.
  function Put(r: Regs, a: Reg, v: Value): Regs {
    if a == NO_REG then r else r[a := v]
  }

  // One instruction at position i: the next position and the new registers.
  // Every test is followed by a jump, which is executed when the test accepts.
  function Step(rel: Relation, k: seq<Value>, ins: Instr, i: nat, r: Regs): (int, Regs) {
    match ins
    case Move(a, b) => (i + 1, r[a := r[b]])
    case LoadK(a, bx) => (i + 1, r[a := Kst(k, bx)])
    case LoadBool(a, v, skip) => (if skip then i + 2 else i + 1, r[a := Bool(v)])
    case Not(a, b) => (i + 1, r[a := Bool(IsFalse(r[b]))])
    case Jmp(sbx) => (i + 1 + sbx, r)
    case Cmp(op, cond, rb, rc) =>
      (if rel(op, RKValue(k, r, rb), RKValue(k, r, rc)) == cond then i + 1 else i + 2, r)
    case Test(a, c) => (if IsFalse(r[a]) != c then i + 1 else i + 2, r)
    case TestSet(a, b, c) => if IsFalse(r[b]) != c then (i + 1, Put(r, a, r[b])) else (i + 2, r)
  }

  // Runs from position i until it leaves the code, reaches a position in
  // `stop`, or would not move forward.
  ghost function Exec(rel: Relation, k: seq<Value>, code: seq<Instr>, stop: set<nat>, i: nat, r: Regs): (nat, Regs)
    decreases |code| - i
  {
    if i >= |code| || i in stop then (i, r) else
    var (n, r') := Step(rel, k, code[i], i, r);
    if n <= i then (i, r) else Exec(rel, k, code, stop, n, r')
  }

  // The jump at position j is entered through the test just before it.
  predicate Controlled(code: seq<Instr>, j: int) {
    1 <= j < |code| && IsTest(code[j - 1])
  }

  predicate SetsValue(code: seq<Instr>, j: int) {
    1 <= j < |code| && code[j - 1].TestSet?
  }

  ghost predicate SafeAt(code: seq<Instr>, pend: set<nat>, i: nat)
    requires i < |code|
  {
    match code[i]
    case Jmp(sbx) => i in pend || (0 <= sbx && i + 1 + sbx <= |code| && !Controlled(code, i + 1 + sbx))
    case LoadBool(_, _, skip) => skip ==> i + 2 <= |code| && !Controlled(code, i + 2)
    case Cmp(_, _, _, _) => i + 2 <= |code| && code[i + 1].Jmp?
    case Test(_, _) => i + 2 <= |code| && code[i + 1].Jmp?
    case TestSet(a, _, _) => i + 2 <= |code| && code[i + 1].Jmp? && (a == NO_REG <==> i + 1 in pend)
    case _ => true
  }

  // Code whose only unfinished parts are the jumps in `pend`.
  ghost predicate Safe(code: seq<Instr>, pend: set<nat>) {
    && (forall i {:trigger i in pend} :: i in pend ==> i < |code| && code[i].Jmp?)
    && (forall i {:trigger SafeAt(code, pend, i)} | 0 <= i < |code| :: SafeAt(code, pend, i))
  }

  // code' may differ from code in the target of a stopped jump, and in the
  // register that the TESTSET in front of a stopped jump stores to.
  ghost predicate Similar(code: seq<Instr>, code': seq<Instr>, stop: set<nat>, i: nat)
    requires i < |code| <= |code'|
  {
    || code'[i] == code[i]
    || (&& i + 1 in stop && code[i].TestSet? && code[i].a == NO_REG
        && (|| code'[i] == Test(code[i].b, code[i].c)
            || (code'[i].TestSet? && code'[i].b == code[i].b && code'[i].c == code[i].c)))
  }

  ghost predicate Refines(code: seq<Instr>, stop: set<nat>, code': seq<Instr>, stop': set<nat>) {
    && |code| <= |code'|
    && (forall i {:trigger Similar(code, code', stop, i)} | 0 <= i < |code| && i !in stop ::
          i !in stop' && Similar(code, code', stop, i))
    && (forall i {:trigger code'[i]} | 0 <= i < |code| && i in stop :: code'[i].Jmp?)
  }

  // What the control in front of jump j stores when it lets execution into j.
  ghost function Stored(code: seq<Instr>, j: nat, r: Regs): Regs {
    if SetsValue(code, j) then Put(r, code[j - 1].a, r[code[j - 1].b]) else r
  }

  // Safe code does not end in a test.
  lemma SafeEnd(code: seq<Instr>, pend: set<nat>)
    requires Safe(code, pend) && |code| >= 1
    ensures !IsTest(code[|code| - 1])
  {
    assert SafeAt(code, pend, |code| - 1);
  }

  // Execution of safe code ends at its end or at a pending jump.
  lemma {:induction false} ExecStops(rel: Relation, k: seq<Value>, code: seq<Instr>, stop: set<nat>, i: nat, r: Regs)
    requires Safe(code, stop) && i <= |code|
    ensures var loc := Exec(rel, k, code, stop, i, r).0; loc == |code| || (loc < |code| && loc in stop)
    decreases |code| - i
  {
    if i < |code| && i !in stop {
      assert SafeAt(code, stop, i);
      var (n, r') := Step(rel, k, code[i], i, r);
      ExecStops(rel, k, code, stop, n, r');
    }
  }

  // Running changed and extended code is running the old code up to where it
  // stopped, storing what the changed control now stores, and going on.
  lemma {:induction false} ExecRefines(rel: Relation, k: seq<Value>, code: seq<Instr>, stop: set<nat>,
                                       code': seq<Instr>, stop': set<nat>, i: nat, r: Regs)
    requires Safe(code, stop) && Refines(code, stop, code', stop')
    requires i <= |code| && i !in stop
    ensures var (loc, r1) := Exec(rel, k, code, stop, i, r);
            Exec(rel, k, code', stop', i, r) ==
            Exec(rel, k, code', stop', loc, if loc in stop then Stored(code', loc, r1) else r1)
    decreases |code| - i
  {
    if i < |code| {
      assert SafeAt(code, stop, i);
      assert Similar(code, code', stop, i);
      var (n, r') := Step(rel, k, code[i], i, r);
      var (n', r'') := Step(rel, k, code'[i], i, r);
      assert n == n' && i < n <= |code|;
      if n in stop {
        if n == i + 1 && IsTest(code[i]) {
          assert r'' == Stored(code', n, r');
        } else {
          assert !Controlled(code, n);
          assert n - 1 in stop || Similar(code, code', stop, n - 1);
          assert Stored(code', n, r') == r';
        }
      } else {
        assert r' == r'' by {
          if i + 1 in stop && IsTest(code[i]) { assert n == i + 2; }
        }
        ExecRefines(rel, k, code, stop, code', stop', n, r');
      }
    }
  }

  // The virtual machine itself: a test that accepts performs the jump that
  // follows it, a test that does not skips that jump. The run ends behind the code.
  ghost function Run(rel: Relation, k: seq<Value>, code: seq<Instr>, pc: nat, r: Regs): Regs
    decreases |code| - pc
  {
    if pc >= |code| then r else
    var target := if pc + 1 < |code| && code[pc + 1].Jmp? then pc + 2 + code[pc + 1].sbx else pc + 2;
    var (n: int, r': Regs) := match code[pc]
      case Move(a, b) => (pc + 1, r[a := r[b]])
      case LoadK(a, bx) => (pc + 1, r[a := Kst(k, bx)])
      case LoadBool(a, v, skip) => (if skip then pc + 2 else pc + 1, r[a := Bool(v)])
      case Not(a, b) => (pc + 1, r[a := Bool(IsFalse(r[b]))])
      case Jmp(sbx) => (pc + 1 + sbx, r)
      case Cmp(op, cond, rb, rc) =>
        (if rel(op, RKValue(k, r, rb), RKValue(k, r, rc)) == cond then target else pc + 2, r)
      case Test(a, c) => (if IsFalse(r[a]) != c then target else pc + 2, r)
      case TestSet(a, b, c) => if IsFalse(r[b]) != c then (target, r[a := r[b]]) else (pc + 2, r);
    if n <= pc then r' else Run(rel, k, code, n, r')
  }

  // An execution that met no pending jump is a run of the virtual machine.
  lemma {:induction false} ExecIsRun(rel: Relation, k: seq<Value>, code: seq<Instr>, stop: set<nat>, i: nat, r: Regs)
    requires Safe(code, stop) && i <= |code| && Exec(rel, k, code, stop, i, r).0 == |code|
    ensures Run(rel, k, code, i, r) == Exec(rel, k, code, stop, i, r).1
    decreases |code| - i
  {
    if i < |code| {
      ExecStops(rel, k, code, stop, i, r);
      assert i !in stop && SafeAt(code, stop, i);
      var (n, r') := Step(rel, k, code[i], i, r);
      if n == i + 1 && IsTest(code[i]) {
        assert n !in stop && SafeAt(code, stop, n);
        ExecIsRun(rel, k, code, stop, n + 1 + code[n].sbx, r');
      } else {
        ExecIsRun(rel, k, code, stop, n, r');
      }
    }
  }
}
