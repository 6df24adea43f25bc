// What a half-compiled expression stands for, and how each code change keeps it.
module ExprMeaning {
  import opened LuaValues
  import opened Bytecode
  import opened Expressions

  datatype BinOpr = OprAnd | OprOr | OprRel(op: RelOp)

  function Binary(op: BinOpr, x: Expr, y: Expr): Expr {
    match op
    case OprAnd => And(x, y)
    case OprOr => Or(x, y)
    case OprRel(rop) => Compare(rop, x, y)
  }

  function BinaryTerm(op: BinOpr, y: Term, z: Term, kept: bool): Term {
    match op
    case OprAnd => AndOf(y, z)
    case OprOr => OrOf(y, z)
    case OprRel(rop) => CompareOf(rop, y, z, kept)
  }

  // Where the value of an expression is when no pending jump was taken.
  datatype Kind =
    | VTrue
    | VFalse
    | VK(i: nat)            // constant i
    | VKNum(n: real)
    | VLocal(r: Reg)
    | VNonReloc(r: Reg)     // in register r
    | VRelocable(pc: nat)   // the last instruction computes it
    | VJmp(pc: nat)         // the last two instructions are a comparison and its jump

  // Unfinished code together with an expression: the pending jumps, those that
  // leave when the expression is true (tl) or false (fl), and those aimed at
  // the next instruction (jl).
  datatype Snap = Snap(code: seq<Instr>, k: seq<Value>, pend: set<nat>, kind: Kind,
                       tl: set<nat>, fl: set<nat>, jl: set<nat>)

  function Body(code: seq<Instr>, kind: Kind): seq<Instr> {
    if kind.VJmp? && |code| >= 2 then code[..|code| - 2]
    else if kind.VRelocable? && |code| >= 1 then code[..|code| - 1]
    else code
  }

  ghost function TailValue(rel: Relation, k: seq<Value>, code: seq<Instr>, kind: Kind, r: Regs): Value {
    match kind
    case VTrue => Bool(true)
    case VFalse => Bool(false)
    case VK(i) => Kst(k, i)
    case VKNum(n) => Number(n)
    case VLocal(q) => r[q]
    case VNonReloc(q) => r[q]
    case VRelocable(pc) =>
      if |code| >= 1 && code[|code| - 1].Not? then Bool(IsFalse(r[code[|code| - 1].b])) else Nil
    case VJmp(pc) =>
      if |code| >= 2 && code[|code| - 2].Cmp? then
        var t := code[|code| - 2];
        Bool(rel(t.op, RKValue(k, r, t.rb), RKValue(k, r, t.rc)) == t.cond)
      else Nil
  }

  ghost predicate KindOk(sn: Snap, nact: nat) {
    match sn.kind
    case VK(i) => i < |sn.k|
    case VRelocable(pc) => |sn.code| >= 1 && pc == |sn.code| - 1 && sn.code[pc].Not? && sn.jl == {}
    case VJmp(pc) =>
      |sn.code| >= 2 && pc == |sn.code| - 1 && sn.code[pc] == Jmp(NO_JUMP) && sn.code[pc - 1].Cmp? && sn.jl == {}
    case VLocal(r) => r < nact
    case _ => true
  }

  ghost predicate SnapOk(sn: Snap, nact: nat) {
    && KindOk(sn, nact)
    && Safe(Body(sn.code, sn.kind), sn.pend)
    && sn.tl <= sn.pend && sn.fl <= sn.pend && sn.jl <= sn.pend
    && sn.tl !! sn.fl && sn.tl !! sn.jl && sn.fl !! sn.jl
  }

  // What jump j brings: the register that its TESTSET tests, or nothing.
  ghost function Held(code: seq<Instr>, j: nat, r: Regs): Carry {
    if SetsValue(code, j) then Carries(r[code[j - 1].b]) else Nothing
  }

  // The jumps that bring a value, with its register.
  function Values(code: seq<Instr>, jl: set<nat>): map<nat, Reg> {
    map j | j in jl && SetsValue(code, j) :: code[j - 1].b
  }

  // How much of the way through an expression its code still tells: all of it;
  // all but what the jumps aimed at its end brought, which have landed; or the value alone.
  datatype Mode = Fresh | Landing | Done

  // The place and the claim of one expression: its code starts at `start`, also
  // entered through the jumps in `entry`, some of which bring a value, and keeps
  // the registers below `keep` except `save`.
  datatype Claim = Claim(start: nat, entry: set<nat>, carried: map<nat, Reg>, x: Term, keep: nat, save: int, mode: Mode)

  // The claim of an expression whose code begins behind this code.
  function Behind(code: seq<Instr>, jl: set<nat>, x: Term, keep: nat): Claim {
    Claim(|code|, jl, Values(code, jl), x, keep, -1, Fresh)
  }

  function Landed1(m: Mode): Mode { if m.Fresh? then Landing else m }

  ghost function CarryAt(c: Claim, i: nat, r: Regs): Carry {
    if i in c.carried then Carries(r[c.carried[i]]) else Nothing
  }

  // The code of the claim begins where no test is waiting for its jump, and the
  // lists lie in that code or came in from outside.
  ghost predicate Placed(c: Claim, sn: Snap) {
    && c.start <= |sn.code| && (c.start >= 1 ==> !IsTest(sn.code[c.start - 1]))
    && (forall j :: j in c.entry ==> j < c.start && sn.code[j].Jmp?)
    && (forall j :: j in sn.jl || j in sn.tl || j in sn.fl ==> j >= c.start || j in c.entry)
  }

  ghost predicate Kept(c: Claim, r: Regs, r1: Regs) {
    forall q {:trigger r1[q]} | 0 <= q < c.keep && q < 256 && q != c.save :: r1[q] == r[q]
  }

  // How execution has left the code when it stopped at loc.
  ghost function WayAt(rel: Relation, kf: seq<Value>, sn: Snap, loc: nat, r1: Regs): Way {
    if loc in sn.tl then Exit(true, Held(sn.code, loc, r1))
    else if loc in sn.fl then Exit(false, Held(sn.code, loc, r1))
    else Through(if loc in sn.jl then Held(sn.code, loc, r1) else Nothing, TailValue(rel, kf, sn.code, sn.kind, r1))
  }

  ghost predicate Agree(m: Mode, w: Way, w1: Way) {
    match m
    case Fresh => w == w1
    case Landing => if w.Through? then w1.Through? && w.tail == w1.tail else w == w1
    case Done => w.Result() == w1.Result()
  }

  ghost predicate Delivers(rel: Relation, kf: seq<Value>, sn: Snap, c: Claim, d: Carry, r: Regs, loc: nat, r1: Regs) {
    && Kept(c, r, r1) && (loc in sn.tl || loc in sn.fl || loc in sn.jl || loc == |Body(sn.code, sn.kind)|)
    && Agree(c.mode, Course(rel, c.x, r, d), WayAt(rel, kf, sn, loc, r1))
  }

  // Whatever the registers, executing the code takes the way of the expression.
  // A jump from outside is entered behind its control, which may store its value.
  ghost predicate Means(rel: Relation, sn: Snap, c: Claim) {
    var body := Body(sn.code, sn.kind);
    forall kf, i, r {:trigger Exec(rel, kf, body, sn.pend, i, Stored(body, i, r))} ::
      sn.k <= kf && (i == c.start || i in c.entry) ==>
        var (loc, r1) := Exec(rel, kf, body, sn.pend, i, Stored(body, i, r));
        Delivers(rel, kf, sn, c, CarryAt(c, i, r), r, loc, r1)
  }

  // How a test has been left, the one that leaves when the truth is b.
  ghost function TurnAt(sn: Snap, b: bool, loc: nat, r1: Regs): Turn {
    if loc in (if b then sn.tl else sn.fl) then Leave(Held(sn.code, loc, r1))
    else GoOn(if loc in sn.jl then Held(sn.code, loc, r1) else Nothing)
  }

  ghost predicate Leaves(rel: Relation, sn: Snap, c: Claim, b: bool, d: Carry, r: Regs, loc: nat, r1: Regs) {
    && Kept(c, r, r1) && (loc in (if b then sn.tl else sn.fl) || loc in sn.jl || loc == |sn.code|)
    && TurnOf(Lit(Source(c.x)), Course(rel, c.x, r, d), b) == TurnAt(sn, b, loc, r1)
  }

  ghost predicate Tests(rel: Relation, sn: Snap, c: Claim, b: bool) {
    forall kf, i, r {:trigger Exec(rel, kf, sn.code, sn.pend, i, Stored(sn.code, i, r))} ::
      sn.k <= kf && (i == c.start || i in c.entry) ==>
        var (loc, r1) := Exec(rel, kf, sn.code, sn.pend, i, Stored(sn.code, i, r));
        Leaves(rel, sn, c, b, CarryAt(c, i, r), r, loc, r1)
  }

  // A claim of less of the way is weaker.
  lemma MeansLess(rel: Relation, sn: Snap, c: Claim, m: Mode)
    requires Means(rel, sn, c) && (m == c.mode || c.mode.Fresh? || m.Done?)
    ensures Means(rel, sn, c.(mode := m))
  {
    forall kf, i, r: Regs | sn.k <= kf && (i == c.start || i in c.entry)
      ensures var (loc, r1) := Exec(rel, kf, Body(sn.code, sn.kind), sn.pend, i, Stored(Body(sn.code, sn.kind), i, r));
              Delivers(rel, kf, sn, c.(mode := m), CarryAt(c, i, r), r, loc, r1)
    {
      MeansAt(rel, sn, c, kf, i, r);
    }
  }

  lemma MeansAt(rel: Relation, sn: Snap, c: Claim, kf: seq<Value>, i: nat, r: Regs)
    requires Means(rel, sn, c) && sn.k <= kf && (i == c.start || i in c.entry)
    ensures var (loc, r1) := Exec(rel, kf, Body(sn.code, sn.kind), sn.pend, i, Stored(Body(sn.code, sn.kind), i, r));
            Delivers(rel, kf, sn, c, CarryAt(c, i, r), r, loc, r1)
  {
  }

  lemma TestsAt(rel: Relation, sn: Snap, c: Claim, b: bool, kf: seq<Value>, i: nat, r: Regs)
    requires Tests(rel, sn, c, b) && sn.k <= kf && (i == c.start || i in c.entry)
    ensures var (loc, r1) := Exec(rel, kf, sn.code, sn.pend, i, Stored(sn.code, i, r));
            Leaves(rel, sn, c, b, CarryAt(c, i, r), r, loc, r1)
  {
  }

  // ---------- patching ----------

  function PatchedAt(code: seq<Instr>, xs: set<nat>, vtarget: int, reg: Reg, dtarget: int, i: nat): Instr
    requires i < |code|
  {
    if i in xs then Jmp((if SetsValue(code, i) then vtarget else dtarget) - (i + 1))
    else if i + 1 in xs && code[i].TestSet? then
      if reg != NO_REG && reg != code[i].b then TestSet(reg, code[i].b, code[i].c)
      else Test(code[i].b, code[i].c)
    else code[i]
  }

  // Every jump in xs aimed at its target, and its TESTSET storing to reg.
  function Patched(code: seq<Instr>, xs: set<nat>, vtarget: int, reg: Reg, dtarget: int): (r: seq<Instr>)
    ensures |r| == |code|
    ensures forall i {:trigger r[i]} | 0 <= i < |code| :: r[i] == PatchedAt(code, xs, vtarget, reg, dtarget, i)
  {
    seq(|code|, i requires 0 <= i < |code| => PatchedAt(code, xs, vtarget, reg, dtarget, i))
  }

  // The jumps of jl aimed at the end of the code.
  function Landed(code: seq<Instr>, jl: set<nat>): seq<Instr> {
    Patched(code, jl, |code|, NO_REG, |code|)
  }

  // The TESTSETs in front of xs turned into plain tests.
  function Stripped(code: seq<Instr>, xs: set<nat>): (r: seq<Instr>)
    ensures |r| == |code|
    ensures forall i {:trigger r[i]} | 0 <= i < |code| ::
              r[i] == if i + 1 in xs && code[i].TestSet? then Test(code[i].b, code[i].c) else code[i]
  {
    seq(|code|, i requires 0 <= i < |code| =>
      if i + 1 in xs && code[i].TestSet? then Test(code[i].b, code[i].c) else code[i])
  }

  // Landing the jumps aimed here and appending instructions.
  lemma LandedRefines(code: seq<Instr>, pend: set<nat>, jl: set<nat>, tail: seq<Instr>, pend': set<nat>)
    requires Safe(code, pend) && jl <= pend
    requires forall j :: j in pend' ==> (j in pend && j !in jl) || j >= |code|
    ensures Refines(code, pend, Landed(code, jl) + tail, pend')
  {
    var code' := Landed(code, jl) + tail;
    forall i | 0 <= i < |code| && i !in pend
      ensures i !in pend' && Similar(code, code', pend, i)
    {
      assert SafeAt(code, pend, i);
    }
    forall i | 0 <= i < |code| && i in pend ensures code'[i].Jmp? {
    }
  }

  lemma LandedSafe(code: seq<Instr>, pend: set<nat>, jl: set<nat>, tail: seq<Instr>, pend': set<nat>)
    requires Safe(code, pend) && jl <= pend
    requires forall j :: j in pend' <==> (j in pend && j !in jl) || (|code| <= j && j in pend')
    requires var code' := Landed(code, jl) + tail;
             && (forall j :: j in pend' && j >= |code| ==> j < |code'| && code'[j].Jmp?)
             && (forall i | |code| <= i < |code'| :: SafeAt(code', pend', i))
    ensures Safe(Landed(code, jl) + tail, pend')
  {
    var code' := Landed(code, jl) + tail;
    forall i | 0 <= i < |code'|
      ensures SafeAt(code', pend', i)
    {
      if i < |code| {
        assert SafeAt(code, pend, i);
        if i + 1 < |code| { assert SafeAt(code, pend, i + 1); }
        if |code| >= 1 { assert SafeAt(code, pend, |code| - 1); }
        forall j | 0 <= j <= |code| && !Controlled(code, j)
          ensures !Controlled(code', j)
        {
          if j == |code| && j >= 1 { assert !IsTest(code[j - 1]); }
        }
      }
    }
  }

  ghost predicate Fits(c: Claim, n: nat) {
    c.start <= n && (forall j :: j in c.entry ==> j <= n)
  }

  // Landing jl does not touch the controls of the other pending jumps, and
  // leaves no control in front of jl that stores.
  lemma LandedControls(code: seq<Instr>, pend: set<nat>, jl: set<nat>, tail: seq<Instr>, j: nat, r: Regs)
    requires Safe(code, pend) && jl <= pend && j in pend
    ensures var code' := Landed(code, jl) + tail;
            && j < |code|
            && Stored(code', j, r) == r
            && (j in jl ==> code'[j] == Jmp(|code| - (j + 1)))
            && (j !in jl ==>
                  && code'[j] == code[j]
                  && SetsValue(code', j) == SetsValue(code, j)
                  && (SetsValue(code, j) ==> code'[j - 1] == code[j - 1]))
  {
    if j >= 1 {
      assert SafeAt(code, pend, j - 1);
    }
  }

  // The control in front of a jump that is not landed stores what it did.
  lemma LandedStored(code: seq<Instr>, pend: set<nat>, jl: set<nat>, tail: seq<Instr>, i: nat, r: Regs)
    requires Safe(code, pend) && jl <= pend && i <= |code|
    ensures Stored(Landed(code, jl) + tail, i, r) == Stored(code, i, r)
  {
    if i >= 1 { assert SafeAt(code, pend, i - 1); }
  }

  // Where an execution of the extended code is after the old part of it.
  lemma Arrive(rel: Relation, kf: seq<Value>, code: seq<Instr>, pend: set<nat>, jl: set<nat>,
               tail: seq<Instr>, pend': set<nat>, i: nat, r: Regs)
    requires Safe(code, pend) && jl <= pend && i <= |code|
    requires forall j :: j in pend' <==> (j in pend && j !in jl) || (|code| <= j && j in pend')
    ensures var code' := Landed(code, jl) + tail;
            var (loc, r1) := Exec(rel, kf, code, pend, i, Stored(code, i, r));
            Exec(rel, kf, code', pend', i, Stored(code', i, r)) ==
            if loc in pend && loc !in jl then (loc, r1) else Exec(rel, kf, code', pend', |code|, r1)
  {
    var code' := Landed(code, jl) + tail;
    var r0 := Stored(code, i, r);
    LandedStored(code, pend, jl, tail, i, r);
    var (loc, r1) := Exec(rel, kf, code, pend, i, r0);
    LandedRefines(code, pend, jl, tail, pend');
    if i !in pend {
      ExecRefines(rel, kf, code, pend, code', pend', i, r0);
    }
    ExecStops(rel, kf, code, pend, i, r0);
    if loc in pend {
      LandedControls(code, pend, jl, tail, loc, r1);
    }
  }

  // The instruction brings the value of sn into reg.
  ghost predicate LoadOf(rel: Relation, sn: Snap, ld: Instr, reg: Reg) {
    && !IsTest(ld) && !ld.Jmp? && (ld.LoadBool? ==> !ld.skip)
    && forall kf, r {:trigger Step(rel, kf, ld, |Body(sn.code, sn.kind)|, r)} :: sn.k <= kf ==>
         Step(rel, kf, ld, |Body(sn.code, sn.kind)|, r) ==
         (|Body(sn.code, sn.kind)| + 1, r[reg := TailValue(rel, kf, sn.code, sn.kind, r)])
  }

  // The instruction lets execution into the jump behind it exactly when the
  // truth of the value of sn is b; the jump then brings the tested register, or b is the value.
  ghost predicate TestOf(rel: Relation, sn: Snap, b: bool, test: Instr) {
    && IsTest(test) && (test.TestSet? ==> test.a == NO_REG)
    && forall kf, r {:trigger Step(rel, kf, test, |Body(sn.code, sn.kind)|, r)} :: sn.k <= kf ==>
         var n := |Body(sn.code, sn.kind)|;
         var v := TailValue(rel, kf, sn.code, sn.kind, r);
         && Step(rel, kf, test, n, r) == (if IsFalse(v) != b then n + 1 else n + 2, r)
         && (test.TestSet? && IsFalse(v) != b ==> v == r[test.b])
  }

  lemma ComparisonTest(rel: Relation, sn: Snap, nact: nat, b: bool)
    requires KindOk(sn, nact) && sn.kind.VJmp?
    ensures var t := sn.code[|sn.code| - 2]; TestOf(rel, sn, b, Cmp(t.op, t.cond == b, t.rb, t.rc))
  {
    var t := sn.code[|sn.code| - 2];
    var test := Cmp(t.op, t.cond == b, t.rb, t.rc);
    var n := |Body(sn.code, sn.kind)|;
    forall kf, r: Regs | sn.k <= kf
      ensures var v := TailValue(rel, kf, sn.code, sn.kind, r);
              && Step(rel, kf, test, n, r) == (if IsFalse(v) != b then n + 1 else n + 2, r)
    {
    }
  }

  lemma RegisterTest(rel: Relation, sn: Snap, b: bool)
    requires sn.kind.VNonReloc?
    ensures TestOf(rel, sn, b, TestSet(NO_REG, sn.kind.r, b))
  {
    var test := TestSet(NO_REG, sn.kind.r, b);
    var n := |Body(sn.code, sn.kind)|;
    forall kf, r: Regs | sn.k <= kf
      ensures var v := TailValue(rel, kf, sn.code, sn.kind, r);
              && Step(rel, kf, test, n, r) == (if IsFalse(v) != b then n + 1 else n + 2, r)
    {
    }
  }

  lemma NotTest(rel: Relation, sn: Snap, nact: nat, b: bool)
    requires KindOk(sn, nact) && sn.kind.VRelocable?
    ensures TestOf(rel, sn, b, Test(sn.code[sn.kind.pc].b, !b))
  {
    var test := Test(sn.code[sn.kind.pc].b, !b);
    var n := |Body(sn.code, sn.kind)|;
    forall kf, r: Regs | sn.k <= kf
      ensures var v := TailValue(rel, kf, sn.code, sn.kind, r);
              && Step(rel, kf, test, n, r) == (if IsFalse(v) != b then n + 1 else n + 2, r)
    {
    }
  }

  // Loading the value into a register leaves it there.
  ghost predicate Loads(rel: Relation, sn: Snap, c: Claim, ld: Instr, reg: Reg, sn': Snap) {
    && LoadOf(rel, sn, ld, reg) && (reg >= c.keep || reg == c.save)
    && sn' == Snap(Landed(Body(sn.code, sn.kind), sn.jl) + [ld], sn.k, sn.pend - sn.jl,
                   VNonReloc(reg), sn.tl, sn.fl, {})
  }

  lemma LoadMeans(rel: Relation, sn: Snap, nact: nat, c: Claim, ld: Instr, reg: Reg, sn': Snap)
    requires SnapOk(sn, nact) && Means(rel, sn, c)
    requires Fits(c, |Body(sn.code, sn.kind)|)
    requires Loads(rel, sn, c, ld, reg, sn')
    ensures SnapOk(sn', nact) && Means(rel, sn', c.(mode := Landed1(c.mode)))
  {
    hide Delivers, Step, Patched;
    var body, c' := Body(sn.code, sn.kind), c.(mode := Landed1(c.mode));
    LandedSafe(body, sn.pend, sn.jl, [ld], sn'.pend);
    hide Safe;
    forall kf, i, r: Regs | sn'.k <= kf && (i == c.start || i in c.entry)
      ensures var (loc, r1) := Exec(rel, kf, sn'.code, sn'.pend, i, Stored(sn'.code, i, r));
              Delivers(rel, kf, sn', c', CarryAt(c, i, r), r, loc, r1)
    {
      Arrive(rel, kf, body, sn.pend, sn.jl, [ld], sn'.pend, i, r);
      MeansAt(rel, sn, c, kf, i, r);
      var (loc, r1) := Exec(rel, kf, body, sn.pend, i, Stored(body, i, r));
      LoadDelivers(rel, kf, sn, nact, c, ld, reg, sn', CarryAt(c, i, r), r, loc, r1);
    }
  }

  lemma LoadDelivers(rel: Relation, kf: seq<Value>, sn: Snap, nact: nat, c: Claim, ld: Instr, reg: Reg, sn': Snap,
                     d: Carry, r: Regs, loc: nat, r1: Regs)
    requires SnapOk(sn, nact) && sn.k <= kf
    requires Loads(rel, sn, c, ld, reg, sn')
    requires Delivers(rel, kf, sn, c, d, r, loc, r1)
    ensures var (loc', r') := if loc in sn.pend && loc !in sn.jl then (loc, r1)
                              else Exec(rel, kf, sn'.code, sn'.pend, |Body(sn.code, sn.kind)|, r1);
            Delivers(rel, kf, sn', c.(mode := Landed1(c.mode)), d, r, loc', r')
  {
    hide Step, Course;
    var body := Body(sn.code, sn.kind);
    if loc in sn.pend { LandedControls(body, sn.pend, sn.jl, [ld], loc, r1); }
    var _ := Step(rel, kf, ld, |body|, r1);
  }

  // The jump behind the test of an expression that ends in lit brings what it should.
  ghost predicate FitTest(lit: Literal, b: bool, test: Instr) {
    !JumpsAlways(lit, b) && !Skips(lit, b) && (test.TestSet? <==> lit.LLocal? || lit.LConst?)
  }

  // A test of the value followed by a pending jump j, taken when its truth is b.
  lemma TestMeans(rel: Relation, sn: Snap, nact: nat, c: Claim, b: bool, test: Instr, sn': Snap)
    requires SnapOk(sn, nact) && Means(rel, sn, c) && !c.mode.Done?
    requires Fits(c, |Body(sn.code, sn.kind)|)
    requires TestOf(rel, sn, b, test) && FitTest(Lit(Source(c.x)), b, test)
    requires var j := |Body(sn.code, sn.kind)| + 1;
             && |sn'.code| == j + 1 && sn'.code[j].Jmp?
             && sn'.code == Landed(Body(sn.code, sn.kind), sn.jl) + [test, sn'.code[j]]
             && sn'.pend == sn.pend - sn.jl + {j}
             && sn'.tl == (if b then sn.tl + {j} else {})
             && sn'.fl == (if b then {} else sn.fl + {j})
             && sn'.jl == (if b then sn.fl else sn.tl)
             && sn'.k == sn.k
    ensures Safe(sn'.code, sn'.pend) && Tests(rel, sn', c, b)
  {
    var body := Body(sn.code, sn.kind);
    var tail := [test, sn'.code[|body| + 1]];
    LandedSafe(body, sn.pend, sn.jl, tail, sn'.pend);
    forall kf, i, r: Regs | sn'.k <= kf && (i == c.start || i in c.entry)
      ensures var (loc, r1) := Exec(rel, kf, sn'.code, sn'.pend, i, Stored(sn'.code, i, r));
              Leaves(rel, sn', c, b, CarryAt(c, i, r), r, loc, r1)
    {
      Arrive(rel, kf, body, sn.pend, sn.jl, tail, sn'.pend, i, r);
      MeansAt(rel, sn, c, kf, i, r);
      var (loc, r1) := Exec(rel, kf, body, sn.pend, i, Stored(body, i, r));
      TestLeaves(rel, kf, sn, nact, c, b, test, sn', CarryAt(c, i, r), r, loc, r1);
    }
  }

  lemma TestLeaves(rel: Relation, kf: seq<Value>, sn: Snap, nact: nat, c: Claim, b: bool, test: Instr, sn': Snap,
                   d: Carry, r: Regs, loc: nat, r1: Regs)
    requires SnapOk(sn, nact) && !c.mode.Done? && sn.k <= kf
    requires TestOf(rel, sn, b, test) && FitTest(Lit(Source(c.x)), b, test)
    requires var j := |Body(sn.code, sn.kind)| + 1;
             && |sn'.code| == j + 1 && sn'.code[j].Jmp?
             && sn'.code == Landed(Body(sn.code, sn.kind), sn.jl) + [test, sn'.code[j]]
             && sn'.pend == sn.pend - sn.jl + {j}
             && sn'.tl == (if b then sn.tl + {j} else {})
             && sn'.fl == (if b then {} else sn.fl + {j})
             && sn'.jl == (if b then sn.fl else sn.tl)
    requires Delivers(rel, kf, sn, c, d, r, loc, r1)
    ensures var (loc', r') := if loc in sn.pend && loc !in sn.jl then (loc, r1)
                              else Exec(rel, kf, sn'.code, sn'.pend, |Body(sn.code, sn.kind)|, r1);
            Leaves(rel, sn', c, b, d, r, loc', r')
  {
    hide Step, Course, TailValue, Exec;
    var body := Body(sn.code, sn.kind);
    var tail := [test, sn'.code[|body| + 1]];
    if loc in sn.pend { LandedControls(body, sn.pend, sn.jl, tail, loc, r1); }
    TestRuns(rel, kf, sn, nact, b, test, sn', r1);
  }

  // Run at its place, the test stops at the jump behind it or goes past the jump.
  lemma TestRuns(rel: Relation, kf: seq<Value>, sn: Snap, nact: nat, b: bool, test: Instr, sn': Snap, r1: Regs)
    requires SnapOk(sn, nact) && sn.k <= kf && TestOf(rel, sn, b, test)
    requires var j := |Body(sn.code, sn.kind)| + 1;
             && |sn'.code| == j + 1 && sn'.code[j].Jmp?
             && sn'.code == Landed(Body(sn.code, sn.kind), sn.jl) + [test, sn'.code[j]]
             && sn'.pend == sn.pend - sn.jl + {j}
    ensures var n := |Body(sn.code, sn.kind)|;
            var v := TailValue(rel, kf, sn.code, sn.kind, r1);
            && (IsFalse(v) != b ==> Exec(rel, kf, sn'.code, sn'.pend, n, r1) == (n + 1, r1))
            && (IsFalse(v) == b ==> Exec(rel, kf, sn'.code, sn'.pend, n, r1) == (n + 2, r1))
            && (test.TestSet? && IsFalse(v) != b ==> v == r1[test.b])
  {
    hide Step, TailValue, Patched;
    var _ := Step(rel, kf, test, |Body(sn.code, sn.kind)|, r1);
  }

  lemma LandedNothing(code: seq<Instr>)
    ensures Landed(code, {}) == code
  {
  }

  // A constant whose truth makes the jump needless.
  lemma SkipTests(rel: Relation, sn: Snap, nact: nat, c: Claim, b: bool, sn': Snap)
    requires SnapOk(sn, nact) && Means(rel, sn, c) && !sn.kind.VJmp? && !sn.kind.VRelocable?
    requires c.mode.Fresh? && Skips(Lit(Source(c.x)), b)
    requires forall kf, r: Regs {:trigger TailValue(rel, kf, sn.code, sn.kind, r)} :: sn.k <= kf ==>
               IsFalse(TailValue(rel, kf, sn.code, sn.kind, r)) == b
    requires sn'.code == sn.code && sn'.pend == sn.pend && sn'.k == sn.k
    requires sn'.tl == (if b then sn.tl else {}) && sn'.fl == (if b then {} else sn.fl)
    requires sn'.jl == sn.jl + (if b then sn.fl else sn.tl)
    ensures Tests(rel, sn', c, b)
  {
    forall kf, i, r: Regs | sn'.k <= kf && (i == c.start || i in c.entry)
      ensures var (loc, r1) := Exec(rel, kf, sn'.code, sn'.pend, i, Stored(sn'.code, i, r));
              Leaves(rel, sn', c, b, CarryAt(c, i, r), r, loc, r1)
    {
      MeansAt(rel, sn, c, kf, i, r);
      var (loc, r1) := Exec(rel, kf, sn.code, sn.pend, i, Stored(sn.code, i, r));
      assert IsFalse(TailValue(rel, kf, sn.code, sn.kind, r1)) == b;
    }
  }


  // A literal false in a `goiftrue`, or a literal true in a `goiffalse`: the
  // emitted jump absorbs the jumps aimed here, with what they bring.
  ghost predicate LiteralJumps(sn: Snap, c: Claim, b: bool, jump: Instr, sn': Snap) {
    && sn.kind == (if b then VTrue else VFalse)
    && c.mode.Fresh? && JumpsAlways(Lit(Source(c.x)), b) && jump.Jmp?
    && sn'.code == sn.code + [jump] && sn'.pend == sn.pend + {|sn.code|} && sn'.k == sn.k
    && sn'.tl == (if b then sn.tl + {|sn.code|} + sn.jl else {})
    && sn'.fl == (if b then {} else sn.fl + {|sn.code|} + sn.jl)
    && sn'.jl == (if b then sn.fl else sn.tl)
  }

  lemma LiteralTests(rel: Relation, sn: Snap, nact: nat, c: Claim, b: bool, jump: Instr, sn': Snap)
    requires SnapOk(sn, nact) && Means(rel, sn, c) && Fits(c, |sn.code|)
    requires LiteralJumps(sn, c, b, jump, sn')
    ensures Safe(sn'.code, sn'.pend) && Tests(rel, sn', c, b)
  {
    hide Means, Delivers, Leaves, Patched;
    LandedNothing(sn.code);
    LandedSafe(sn.code, sn.pend, {}, [jump], sn'.pend);
    forall kf, i, r: Regs | sn'.k <= kf && (i == c.start || i in c.entry)
      ensures var (loc, r1) := Exec(rel, kf, sn'.code, sn'.pend, i, Stored(sn'.code, i, r));
              Leaves(rel, sn', c, b, CarryAt(c, i, r), r, loc, r1)
    {
      Arrive(rel, kf, sn.code, sn.pend, {}, [jump], sn'.pend, i, r);
      MeansAt(rel, sn, c, kf, i, r);
      var (loc, r1) := Exec(rel, kf, sn.code, sn.pend, i, Stored(sn.code, i, r));
      LiteralLeaves(rel, kf, sn, nact, c, b, jump, sn', CarryAt(c, i, r), r, loc, r1);
    }
  }

  lemma LiteralLeaves(rel: Relation, kf: seq<Value>, sn: Snap, nact: nat, c: Claim, b: bool, jump: Instr, sn': Snap,
                      d: Carry, r: Regs, loc: nat, r1: Regs)
    requires SnapOk(sn, nact) && LiteralJumps(sn, c, b, jump, sn')
    requires Delivers(rel, kf, sn, c, d, r, loc, r1)
    ensures var (loc', r') := if loc in sn.pend then (loc, r1) else Exec(rel, kf, sn'.code, sn'.pend, |sn.code|, r1);
            Leaves(rel, sn', c, b, d, r, loc', r')
  {
    hide Patched, Course, LeafValue;
    LandedNothing(sn.code);
    if loc in sn.pend { LandedControls(sn.code, sn.pend, {}, [jump], loc, r1); }
    if |sn.code| >= 1 { SafeEnd(sn.code, sn.pend); }
  }

  // Jumps aimed here land here.
  lemma LandMeans(rel: Relation, sn: Snap, nact: nat, c: Claim, sn': Snap)
    requires SnapOk(sn, nact) && Means(rel, sn, c) && !sn.kind.VJmp? && !sn.kind.VRelocable?
    requires Fits(c, |sn.code|)
    requires sn' == sn.(code := Landed(sn.code, sn.jl), pend := sn.pend - sn.jl, jl := {})
    ensures SnapOk(sn', nact) && Means(rel, sn', c.(mode := Landed1(c.mode)))
  {
    LandedSafe(sn.code, sn.pend, sn.jl, [], sn'.pend);
    assert Landed(sn.code, sn.jl) + [] == sn'.code;
    forall kf, i, r: Regs | sn'.k <= kf && (i == c.start || i in c.entry)
      ensures var (loc, r1) := Exec(rel, kf, sn'.code, sn'.pend, i, Stored(sn'.code, i, r));
              Delivers(rel, kf, sn', c.(mode := Landed1(c.mode)), CarryAt(c, i, r), r, loc, r1)
    {
      Arrive(rel, kf, sn.code, sn.pend, sn.jl, [], sn'.pend, i, r);
      MeansAt(rel, sn, c, kf, i, r);
      var (loc, r1) := Exec(rel, kf, sn.code, sn.pend, i, Stored(sn.code, i, r));
      if loc in sn.pend { LandedControls(sn.code, sn.pend, sn.jl, [], loc, r1); }
    }
  }

  lemma StrippedRefines(code: seq<Instr>, pend: set<nat>, xs: set<nat>)
    requires Safe(code, pend) && xs <= pend
    ensures Refines(code, pend, Stripped(code, xs), pend) && Safe(Stripped(code, xs), pend)
  {
    var code' := Stripped(code, xs);
    forall i | 0 <= i < |code| ensures SafeAt(code', pend, i) && (i !in pend ==> Similar(code, code', pend, i)) {
      assert SafeAt(code, pend, i);
      if i + 1 < |code| { assert SafeAt(code, pend, i + 1); }
      forall j | 0 <= j <= |code| ensures Controlled(code', j) == Controlled(code, j) {}
    }
  }

  // Stripping changes no execution, and no stripped jump brings a value.
  lemma StrippedExec(rel: Relation, kf: seq<Value>, code: seq<Instr>, pend: set<nat>, xs: set<nat>, i: nat, r: Regs)
    requires Safe(code, pend) && xs <= pend && i <= |code|
    ensures Stored(Stripped(code, xs), i, r) == Stored(code, i, r)
    ensures Exec(rel, kf, Stripped(code, xs), pend, i, Stored(code, i, r)) ==
            Exec(rel, kf, code, pend, i, Stored(code, i, r))
    ensures var loc := Exec(rel, kf, code, pend, i, Stored(code, i, r)).0; loc in xs ==>
              !SetsValue(Stripped(code, xs), loc)
  {
    var code' := Stripped(code, xs);
    var r0 := Stored(code, i, r);
    if i >= 1 { assert SafeAt(code, pend, i - 1); }
    StrippedRefines(code, pend, xs);
    if i !in pend { ExecRefines(rel, kf, code, pend, code', pend, i, r0); }
    ExecStops(rel, kf, code, pend, i, r0);
    var (loc, r1) := Exec(rel, kf, code, pend, i, r0);
    if loc in pend && loc >= 1 {
      assert SafeAt(code, pend, loc - 1);
      assert Stored(code', loc, r1) == r1;
    }
  }

  ghost predicate Negates(rel: Relation, k: seq<Value>, code: seq<Instr>, kind: Kind, sn: Snap) {
    forall kf, r {:trigger TailValue(rel, kf, code, kind, r)} :: k <= kf ==>
      TailValue(rel, kf, code, kind, r) == Bool(IsFalse(TailValue(rel, kf, sn.code, sn.kind, r)))
  }

  // It is known of a literal what the jumps aimed behind it bring; behind a test
  // or a local that has been loaded nothing is pending.
  ghost predicate Negatable(c: Claim, jl: set<nat>) {
    if Lit(Source(c.x)).LLocal? || Lit(Source(c.x)).LTest? then !c.mode.Done? && jl == {} else c.mode.Fresh?
  }

  // `not`: the exits change places, and none of them brings a value any more.
  lemma NotMeans(rel: Relation, sn: Snap, nact: nat, c: Claim, sn': Snap)
    requires SnapOk(sn, nact) && Means(rel, sn, c) && KindOk(sn', nact) && Negatable(c, sn.jl)
    requires Fits(c, |Body(sn.code, sn.kind)|)
    requires Body(sn'.code, sn'.kind) == Stripped(Body(sn.code, sn.kind), sn.tl + sn.fl)
    requires Negates(rel, sn.k, sn'.code, sn'.kind, sn)
    requires sn'.k == sn.k && sn'.pend == sn.pend && sn'.tl == sn.fl && sn'.fl == sn.tl && sn'.jl == sn.jl
    ensures SnapOk(sn', nact) && Means(rel, sn', c.(x := NotOf(c.x), mode := Fresh))
  {
    var body := Body(sn.code, sn.kind);
    var body' := Body(sn'.code, sn'.kind);
    var c' := c.(x := NotOf(c.x), mode := Fresh);
    StrippedRefines(body, sn.pend, sn.tl + sn.fl);
    forall kf, i, r: Regs | sn'.k <= kf && (i == c.start || i in c.entry)
      ensures var (loc, r1) := Exec(rel, kf, body', sn'.pend, i, Stored(body', i, r));
              Delivers(rel, kf, sn', c', CarryAt(c, i, r), r, loc, r1)
    {
      StrippedExec(rel, kf, body, sn.pend, sn.tl + sn.fl, i, r);
      MeansAt(rel, sn, c, kf, i, r);
      var (loc, r1) := Exec(rel, kf, body, sn.pend, i, Stored(body, i, r));
      NotDelivers(rel, kf, sn, nact, c, sn', CarryAt(c, i, r), r, loc, r1);
    }
  }

  lemma NotDelivers(rel: Relation, kf: seq<Value>, sn: Snap, nact: nat, c: Claim, sn': Snap, d: Carry, r: Regs,
                    loc: nat, r1: Regs)
    requires SnapOk(sn, nact) && Negatable(c, sn.jl) && sn.k <= kf && KindOk(sn', nact)
    requires Body(sn'.code, sn'.kind) == Stripped(Body(sn.code, sn.kind), sn.tl + sn.fl)
    requires Negates(rel, sn.k, sn'.code, sn'.kind, sn)
    requires sn'.k == sn.k && sn'.pend == sn.pend && sn'.tl == sn.fl && sn'.fl == sn.tl && sn'.jl == sn.jl
    requires Delivers(rel, kf, sn, c, d, r, loc, r1)
    ensures Delivers(rel, kf, sn', c.(x := NotOf(c.x), mode := Fresh), d, r, loc, r1)
  {
    var body, body' := Body(sn.code, sn.kind), Body(sn'.code, sn'.kind);
    if loc in sn.pend {
      assert loc < |body|;
      if loc >= 1 {
        assert SafeAt(body, sn.pend, loc - 1) && body[loc - 1] == sn.code[loc - 1]
               && body'[loc - 1] == sn'.code[loc - 1];
      }
    }
    var _ := TailValue(rel, kf, sn'.code, sn'.kind, r1);
  }

  // Making the jump of a comparison an ordinary true-exit: falling through means false.
  ghost predicate Joins(sn: Snap, jump: Instr, sn': Snap) {
    && sn.kind.VJmp? && jump.Jmp? && |sn.code| >= 2
    && sn'.code == sn.code[|sn.code| - 1 := jump] && sn'.k == sn.k && sn'.kind == VFalse
    && sn'.pend == sn.pend + {|sn.code| - 1} && sn'.tl == sn.tl + {|sn.code| - 1}
    && sn'.fl == sn.fl && sn'.jl == sn.jl
  }

  lemma JoinMeans(rel: Relation, sn: Snap, nact: nat, c: Claim, jump: Instr, sn': Snap)
    requires SnapOk(sn, nact) && Means(rel, sn, c) && Joins(sn, jump, sn')
    requires Fits(c, |Body(sn.code, sn.kind)|)
    ensures SnapOk(sn', nact) && Means(rel, sn', c.(mode := Done))
  {
    hide Patched, Delivers;
    var body := Body(sn.code, sn.kind);
    var tail := [sn.code[|body|], jump];
    LandedWhole(body, tail, sn'.code);
    LandedSafe(body, sn.pend, {}, tail, sn'.pend);
    hide Safe;
    forall kf, i, r: Regs | sn'.k <= kf && (i == c.start || i in c.entry)
      ensures var (loc, r1) := Exec(rel, kf, sn'.code, sn'.pend, i, Stored(sn'.code, i, r));
              Delivers(rel, kf, sn', c.(mode := Done), CarryAt(c, i, r), r, loc, r1)
    {
      Arrive(rel, kf, body, sn.pend, {}, tail, sn'.pend, i, r);
      MeansAt(rel, sn, c, kf, i, r);
      var (loc, r1) := Exec(rel, kf, body, sn.pend, i, Stored(body, i, r));
      JoinDelivers(rel, kf, sn, nact, c, jump, sn', CarryAt(c, i, r), r, loc, r1);
    }
  }

  lemma LandedWhole(body: seq<Instr>, tail: seq<Instr>, code: seq<Instr>)
    requires body + tail == code
    ensures Landed(body, {}) + tail == code
  {
    LandedNothing(body);
  }

  lemma JoinDelivers(rel: Relation, kf: seq<Value>, sn: Snap, nact: nat, c: Claim, jump: Instr, sn': Snap,
                     d: Carry, r: Regs, loc: nat, r1: Regs)
    requires SnapOk(sn, nact) && Joins(sn, jump, sn')
    requires Delivers(rel, kf, sn, c, d, r, loc, r1)
    ensures var (loc', r') := if loc in sn.pend then (loc, r1)
                              else Exec(rel, kf, sn'.code, sn'.pend, |Body(sn.code, sn.kind)|, r1);
            Delivers(rel, kf, sn', c.(mode := Done), d, r, loc', r')
  {
    hide Course, LeafValue;
    var body := Body(sn.code, sn.kind);
    if loc in sn.pend {
      LandedWhole(body, [sn.code[|body|], jump], sn'.code);
      LandedControls(body, sn.pend, {}, [sn.code[|body|], jump], loc, r1);
    }
  }

  // More constants change nothing.
  lemma GrowMeans(rel: Relation, sn: Snap, nact: nat, c: Claim, k': seq<Value>)
    requires SnapOk(sn, nact) && Means(rel, sn, c) && sn.k <= k'
    ensures SnapOk(sn.(k := k'), nact) && Means(rel, sn.(k := k'), c)
  {
    var sn' := sn.(k := k');
    forall kf, i, r: Regs | sn'.k <= kf && (i == c.start || i in c.entry)
      ensures var (loc, r1) := Exec(rel, kf, Body(sn.code, sn.kind), sn.pend, i, Stored(Body(sn.code, sn.kind), i, r));
              Delivers(rel, kf, sn', c, CarryAt(c, i, r), r, loc, r1)
    {
      MeansAt(rel, sn, c, kf, i, r);
    }
  }

  // A literal may as well be read from the table of constants.
  lemma ConstantMeans(rel: Relation, sn: Snap, nact: nat, c: Claim, k': seq<Value>, kind: Kind)
    requires SnapOk(sn, nact) && Means(rel, sn, c) && sn.k <= k' && kind.VK? && kind.i < |k'|
    requires sn.kind.VKNum? || sn.kind.VTrue? || sn.kind.VFalse?
    requires k'[kind.i] == (match sn.kind case VKNum(n) => Number(n) case VTrue => Bool(true) case _ => Bool(false))
    ensures SnapOk(sn.(k := k', kind := kind), nact) && Means(rel, sn.(k := k', kind := kind), c)
  {
    var sn' := sn.(k := k', kind := kind);
    forall kf, i, r: Regs | sn'.k <= kf && (i == c.start || i in c.entry)
      ensures var (loc, r1) := Exec(rel, kf, sn.code, sn.pend, i, Stored(sn.code, i, r));
              Delivers(rel, kf, sn', c, CarryAt(c, i, r), r, loc, r1)
    {
      MeansAt(rel, sn, c, kf, i, r);
    }
  }

  // ---------- two expressions in sequence ----------

  // Below s nothing changes but the jumps of jl and where the TESTSETs in front of them store.
  ghost predicate KeepsAt(code: seq<Instr>, pend: set<nat>, jl: set<nat>, s: nat, code': seq<Instr>, pend': set<nat>,
                          i: nat)
    requires i < s <= |code| && s <= |code'|
  {
    if i in jl then code'[i].Jmp?
    else if i in pend then i in pend' && code'[i] == code[i]
    else && i !in pend'
         && (|| code'[i] == code[i]
             || (&& i + 1 < s && i + 1 in jl && code[i].TestSet? && code[i].a == NO_REG
                 && (|| code'[i] == Test(code[i].b, code[i].c)
                     || (code'[i].TestSet? && code'[i].b == code[i].b && code'[i].c == code[i].c))))
  }

  ghost predicate Keeps(code: seq<Instr>, pend: set<nat>, jl: set<nat>, s: nat, code': seq<Instr>, pend': set<nat>) {
    && s <= |code| && s <= |code'|
    && forall i {:trigger code'[i]} {:trigger KeepsAt(code, pend, jl, s, code', pend', i)} | 0 <= i < s ::
         KeepsAt(code, pend, jl, s, code', pend', i)
  }

  // None of the jumps brings a value.
  ghost predicate Plain(code: seq<Instr>, xs: set<nat>) {
    forall j {:trigger SetsValue(code, j)} | j in xs :: !SetsValue(code, j)
  }

  // Where the value of an expression that ends in lit is.
  ghost predicate KindFits(lit: Literal, kind: Kind) {
    match lit
    case LTrue => kind.VTrue?
    case LFalse => kind.VFalse?
    case LConst => kind.VK? || kind.VKNum?
    case LLocal => kind.VLocal? || kind.VNonReloc?
    case LTest => kind.VRelocable? || kind.VJmp?
  }

  lemma KeepsSelf(code: seq<Instr>, pend: set<nat>, jl: set<nat>, s: nat, code': seq<Instr>, pend': set<nat>)
    requires s <= |code| && |code'| >= s && code'[..s] == code[..s]
    requires forall j | j in jl :: j < s && code[j].Jmp?
    requires forall j | j < s :: j in pend' <==> j in pend
    ensures Keeps(code, pend, jl, s, code', pend')
  {
    forall i | 0 <= i < s ensures KeepsAt(code, pend, jl, s, code', pend', i) {
      assert code'[i] == code'[..s][i] == code[..s][i];
    }
  }

  lemma KeepsTransitive(code: seq<Instr>, pend: set<nat>, jl: set<nat>, s: nat,
                        code1: seq<Instr>, pend1: set<nat>, jl1: set<nat>, s1: nat,
                        code2: seq<Instr>, pend2: set<nat>)
    requires Keeps(code, pend, jl, s, code1, pend1) && Keeps(code1, pend1, jl1, s1, code2, pend2)
    requires s <= s1 && (s >= 1 ==> !IsTest(code[s - 1]))
    requires forall j | j in jl1 :: j in jl || j >= s
    ensures Keeps(code, pend, jl, s, code2, pend2)
  {
    forall i | 0 <= i < s ensures KeepsAt(code, pend, jl, s, code2, pend2, i) {
      assert KeepsAt(code, pend, jl, s, code1, pend1, i);
      assert KeepsAt(code1, pend1, jl1, s1, code2, pend2, i);
    }
  }

  lemma PlacedStays(c: Claim, sn: Snap, sn': Snap, x: Term, m: Mode)
    requires Placed(c, sn) && Keeps(sn.code, sn.pend, c.entry, c.start, sn'.code, sn'.pend)
    requires forall j :: j in sn'.jl || j in sn'.tl || j in sn'.fl ==> j >= c.start || j in c.entry
    ensures Placed(c.(x := x, mode := m), sn')
  {
    forall j | j in c.entry ensures sn'.code[j].Jmp? {
      assert KeepsAt(sn.code, sn.pend, c.entry, c.start, sn'.code, sn'.pend, j);
    }
    if c.start >= 1 {
      assert KeepsAt(sn.code, sn.pend, c.entry, c.start, sn'.code, sn'.pend, c.start - 1);
    }
  }

  lemma KeepsRefines(code: seq<Instr>, pend: set<nat>, jl: set<nat>, code': seq<Instr>, pend': set<nat>, n: nat)
    requires Safe(code, pend) && jl <= pend
    requires Keeps(code, pend, jl, |code|, code', pend') && |code| <= n <= |code'|
    ensures Refines(code, pend, code'[..n], pend')
  {
    forall i | 0 <= i < |code| && i !in pend ensures i !in pend' && Similar(code, code'[..n], pend, i) {
      assert code'[i] == code'[..n][i];
    }
    forall i | 0 <= i < |code| && i in pend ensures code'[..n][i].Jmp? {
      assert code'[i] == code'[..n][i];
    }
  }

  // Where an execution of the kept code is after the old part of it.
  lemma Continue(rel: Relation, kf: seq<Value>, code: seq<Instr>, pend: set<nat>, jl: set<nat>,
                 code': seq<Instr>, pend': set<nat>, n: nat, i: nat, r: Regs)
    requires Safe(code, pend) && jl <= pend && i <= |code|
    requires Keeps(code, pend, jl, |code|, code', pend') && |code| <= n <= |code'|
    ensures var (loc, r1) := Exec(rel, kf, code, pend, i, Stored(code, i, r));
            && Exec(rel, kf, code'[..n], pend', i, Stored(code'[..n], i, r))
               == Exec(rel, kf, code'[..n], pend', loc, Stored(code'[..n], loc, r1))
            && (loc in pend && loc !in jl ==>
                  && loc in pend' && Stored(code'[..n], loc, r1) == r1
                  && SetsValue(code', loc) == SetsValue(code, loc)
                  && (SetsValue(code, loc) ==> code'[loc - 1] == code[loc - 1]))
  {
    var r0 := Stored(code, i, r);
    var (loc, r1) := Exec(rel, kf, code, pend, i, r0);
    KeepsRefines(code, pend, jl, code', pend', n);
    ExecStops(rel, kf, code, pend, i, r0);
    KeptStored(code, pend, jl, code', pend', n, i, r);
    KeptStored(code, pend, jl, code', pend', n, loc, r1);
    if i !in pend { ExecRefines(rel, kf, code, pend, code'[..n], pend', i, r0); }
    if loc in pend { assert code'[loc] == code'[loc]; }
  }

  // What the controls in front of kept jumps and of code that has been left store.
  lemma KeptStored(code: seq<Instr>, pend: set<nat>, jl: set<nat>, code': seq<Instr>, pend': set<nat>, n: nat, i: nat,
                   r: Regs)
    requires Safe(code, pend) && jl <= pend && i <= |code|
    requires Keeps(code, pend, jl, |code|, code', pend') && |code| <= n <= |code'|
    ensures i in pend ==> Stored(code, i, r) == r
    ensures i !in pend ==> Stored(code'[..n], i, r) == Stored(code, i, r)
    ensures i == |code| ==> Stored(code, i, r) == r
    ensures i in pend && i !in jl ==>
              SetsValue(code', i) == SetsValue(code, i) && (SetsValue(code, i) ==> code'[i - 1] == code[i - 1])
                                      && Stored(code'[..n], i, r) == r
  {
    if i >= 1 {
      assert SafeAt(code, pend, i - 1);
      assert code'[i - 1] == code'[..n][i - 1];
      assert KeepsAt(code, pend, jl, |code|, code', pend', i - 1);
    }
  }

  // The course of an expression over kept locals.
  lemma CourseKept(rel: Relation, z: Term, keep: nat, r: Regs, r1: Regs, d: Carry)
    requires LeavesOnly(z) && LocalsBelow(Source(z), keep)
    requires forall q {:trigger r1[q]} | 0 <= q < keep && q < 256 :: r1[q] == r[q]
    ensures Course(rel, z, r1, d) == Course(rel, z, r, d)
  {
    BelowAll(Source(z), keep);
    CourseDependsOnLocals(rel, z, r1, r, d);
  }

  // A test followed by a second expression is the conjunction or disjunction of the two.
  lemma SequenceMeans(rel: Relation, sn1: Snap, c: Claim, b: bool, sn2: Snap, nact: nat, z: Term, sn': Snap)
    requires Safe(sn1.code, sn1.pend) && sn1.jl <= sn1.pend && Tests(rel, sn1, c, b)
    requires Fits(c, |sn1.code|) && c.save == -1 && LeavesOnly(z) && LocalsBelow(Source(z), c.keep) && c.keep <= 256
    requires Keeps(sn1.code, sn1.pend, sn1.jl, |sn1.code|, sn2.code, sn2.pend)
    requires SnapOk(sn2, nact) && Means(rel, sn2, Behind(sn1.code, sn1.jl, z, c.keep))
    requires |sn1.code| <= |Body(sn2.code, sn2.kind)| && sn1.k <= sn2.k
    requires var exits := if b then sn1.tl else sn1.fl;
             && exits <= sn1.pend && exits !! sn1.jl && exits !! (sn2.tl + sn2.fl + sn2.jl)
             && sn' == sn2.(tl := if b then sn2.tl + exits else sn2.tl, fl := if b then sn2.fl else sn2.fl + exits)
    ensures SnapOk(sn', nact)
    ensures Means(rel, sn', c.(x := if b then OrOf(c.x, z) else AndOf(c.x, z), mode := Fresh))
  {
    var exits := if b then sn1.tl else sn1.fl;
    forall j | j in exits ensures j in sn2.pend { assert j < |sn1.code|; assert sn2.code[j] == sn2.code[j]; }
    forall kf, i, r: Regs | sn'.k <= kf && (i == c.start || i in c.entry)
      ensures var body := Body(sn2.code, sn2.kind);
              var (loc, r1) := Exec(rel, kf, body, sn'.pend, i, Stored(body, i, r));
              Delivers(rel, kf, sn', c.(x := if b then OrOf(c.x, z) else AndOf(c.x, z), mode := Fresh),
                CarryAt(c, i, r), r, loc, r1)
    {
      SequenceRun(rel, kf, sn1, c, b, sn2, nact, z, i, r);
    }
  }

  lemma SequenceRun(rel: Relation, kf: seq<Value>, sn1: Snap, c: Claim, b: bool, sn2: Snap, nact: nat, z: Term,
                    i: nat, r: Regs)
    requires Safe(sn1.code, sn1.pend) && sn1.jl <= sn1.pend && Tests(rel, sn1, c, b)
    requires Fits(c, |sn1.code|) && c.save == -1 && LeavesOnly(z) && LocalsBelow(Source(z), c.keep) && c.keep <= 256
    requires Keeps(sn1.code, sn1.pend, sn1.jl, |sn1.code|, sn2.code, sn2.pend)
    requires Means(rel, sn2, Behind(sn1.code, sn1.jl, z, c.keep)) && sn2.k <= kf && sn1.k <= sn2.k
    requires |sn1.code| <= |Body(sn2.code, sn2.kind)| && (i == c.start || i in c.entry)
    requires var exits := if b then sn1.tl else sn1.fl;
             exits <= sn1.pend && exits !! sn1.jl && exits !! (sn2.tl + sn2.fl + sn2.jl)
    ensures var exits := if b then sn1.tl else sn1.fl;
            var sn' := sn2.(tl := if b then sn2.tl + exits else sn2.tl, fl := if b then sn2.fl else sn2.fl + exits);
            var body := Body(sn2.code, sn2.kind);
            var (loc, r1) := Exec(rel, kf, body, sn2.pend, i, Stored(body, i, r));
            Delivers(rel, kf, sn', c.(x := if b then OrOf(c.x, z) else AndOf(c.x, z), mode := Fresh), CarryAt(c, i, r),
              r, loc, r1)
  {
    assert forall j | j in sn1.pend :: j < |sn1.code|;
    hide Means, Tests, Safe, Keeps, Course, TurnOf, Delivers, Leaves;
    var exits := if b then sn1.tl else sn1.fl;
    var body := Body(sn2.code, sn2.kind);
    var (loc1, r1) := Exec(rel, kf, sn1.code, sn1.pend, i, Stored(sn1.code, i, r));
    TestsAt(rel, sn1, c, b, kf, i, r);
    Continue(rel, kf, sn1.code, sn1.pend, sn1.jl, sn2.code, sn2.pend, |body|, i, r);
    assert sn2.code[..|body|] == body;
    if loc1 in exits {
      SequenceLeft(rel, kf, sn1, c, b, sn2, z, CarryAt(c, i, r), r, loc1, r1);
    } else {
      SequenceEnters(rel, sn1, c, b, CarryAt(c, i, r), r, loc1, r1);
      MeansAt(rel, sn2, Behind(sn1.code, sn1.jl, z, c.keep), kf, loc1, r1);
      var (loc, r2) := Exec(rel, kf, body, sn2.pend, loc1, Stored(body, loc1, r1));
      SequenceGone(rel, kf, sn1, c, b, sn2, z, CarryAt(c, i, r), r, loc1, r1, loc, r2);
    }
  }

  lemma SequenceEnters(rel: Relation, sn1: Snap, c: Claim, b: bool, d: Carry, r: Regs, loc1: nat, r1: Regs)
    requires Leaves(rel, sn1, c, b, d, r, loc1, r1)
    ensures loc1 in (if b then sn1.tl else sn1.fl) || loc1 in sn1.jl || loc1 == |sn1.code|
  {
  }

  // The test has left: so has the whole.
  lemma SequenceLeft(rel: Relation, kf: seq<Value>, sn1: Snap, c: Claim, b: bool, sn2: Snap, z: Term,
                     d: Carry, r: Regs, loc1: nat, r1: Regs)
    requires Leaves(rel, sn1, c, b, d, r, loc1, r1) && loc1 in (if b then sn1.tl else sn1.fl)
    requires SetsValue(sn2.code, loc1) == SetsValue(sn1.code, loc1)
    requires SetsValue(sn1.code, loc1) ==> sn2.code[loc1 - 1] == sn1.code[loc1 - 1]
    requires loc1 !in sn2.tl + sn2.fl + sn2.jl
    ensures var exits := if b then sn1.tl else sn1.fl;
            var sn' := sn2.(tl := if b then sn2.tl + exits else sn2.tl, fl := if b then sn2.fl else sn2.fl + exits);
            Delivers(rel, kf, sn', c.(x := if b then OrOf(c.x, z) else AndOf(c.x, z), mode := Fresh), d, r, loc1, r1)
  {
    hide TurnOf;
  }

  // The test has gone on: the way of the second expression is that of the whole.
  lemma SequenceGone(rel: Relation, kf: seq<Value>, sn1: Snap, c: Claim, b: bool, sn2: Snap, z: Term,
                     d: Carry, r: Regs, loc1: nat, r1: Regs, loc: nat, r2: Regs)
    requires Leaves(rel, sn1, c, b, d, r, loc1, r1) && loc1 !in (if b then sn1.tl else sn1.fl)
    requires c.save == -1 && LeavesOnly(z) && LocalsBelow(Source(z), c.keep) && (loc1 in sn1.jl || loc1 == |sn1.code|)
    requires |sn1.code| !in sn1.jl && (if b then sn1.tl else sn1.fl) !! (sn2.tl + sn2.fl + sn2.jl)
    requires |Body(sn2.code, sn2.kind)| !in (if b then sn1.tl else sn1.fl)
    requires var c2 := Behind(sn1.code, sn1.jl, z, c.keep);
             Delivers(rel, kf, sn2, c2, CarryAt(c2, loc1, r1), r1, loc, r2)
    ensures var exits := if b then sn1.tl else sn1.fl;
            var sn' := sn2.(tl := if b then sn2.tl + exits else sn2.tl, fl := if b then sn2.fl else sn2.fl + exits);
            Delivers(rel, kf, sn', c.(x := if b then OrOf(c.x, z) else AndOf(c.x, z), mode := Fresh), d, r, loc, r2)
  {
    hide TurnOf, TailValue, Body;
    CourseKept(rel, z, c.keep, r, r1, CarryAt(Behind(sn1.code, sn1.jl, z, c.keep), loc1, r1));
  }

  // The offsets of pending jumps carry no meaning.
  ghost predicate Relinked(code: seq<Instr>, code': seq<Instr>, pend: set<nat>) {
    && |code'| == |code|
    && forall i {:trigger code'[i]} | 0 <= i < |code| :: code'[i] == code[i] || (i in pend && code'[i].Jmp?)
  }

  lemma RelinkedMeans(rel: Relation, sn: Snap, nact: nat, c: Claim, code': seq<Instr>)
    requires SnapOk(sn, nact) && Means(rel, sn, c) && Fits(c, |Body(sn.code, sn.kind)|)
    requires Relinked(sn.code, code', sn.pend)
    ensures SnapOk(sn.(code := code'), nact) && Means(rel, sn.(code := code'), c)
  {
    hide Delivers, Relinked;
    var sn' := sn.(code := code');
    var body, body' := Body(sn.code, sn.kind), Body(code', sn.kind);
    RelinkedBody(sn, nact, code');
    RelinkedSafe(body, body', sn.pend);
    hide Safe;
    forall kf, i, r: Regs | sn'.k <= kf && (i == c.start || i in c.entry)
      ensures var (loc, r1) := Exec(rel, kf, body', sn'.pend, i, Stored(body', i, r));
              Delivers(rel, kf, sn', c, CarryAt(c, i, r), r, loc, r1)
    {
      RelinkedExec(rel, kf, body, body', sn.pend, i, r);
      MeansAt(rel, sn, c, kf, i, r);
      var (loc, r1) := Exec(rel, kf, body, sn.pend, i, Stored(body, i, r));
      RelinkedDelivers(rel, kf, sn, nact, c, code', CarryAt(c, i, r), r, loc, r1);
    }
  }

  lemma RelinkedBody(sn: Snap, nact: nat, code': seq<Instr>)
    requires KindOk(sn, nact) && Relinked(sn.code, code', sn.pend)
    requires Safe(Body(sn.code, sn.kind), sn.pend)
    ensures Relinked(Body(sn.code, sn.kind), Body(code', sn.kind), sn.pend)
    ensures KindOk(sn.(code := code'), nact)
  {
    var body, body' := Body(sn.code, sn.kind), Body(code', sn.kind);
    forall i | 0 <= i < |body| ensures body'[i] == code'[i] && body[i] == sn.code[i] {}
  }

  lemma RelinkedDelivers(rel: Relation, kf: seq<Value>, sn: Snap, nact: nat, c: Claim, code': seq<Instr>,
                         d: Carry, r: Regs, loc: nat, r1: Regs)
    requires SnapOk(sn, nact) && Relinked(sn.code, code', sn.pend)
    requires Delivers(rel, kf, sn, c, d, r, loc, r1)
    ensures Delivers(rel, kf, sn.(code := code'), c, d, r, loc, r1)
  {
    hide Course;
    RelinkedHeld(sn.code, code', sn.pend, Body(sn.code, sn.kind), loc, r1);
  }

  // Relinking leaves what the jumps bring.

  lemma RelinkedHeld(code: seq<Instr>, code': seq<Instr>, pend: set<nat>, body: seq<Instr>, loc: nat, r: Regs)
    requires Relinked(code, code', pend) && Safe(body, pend) && body <= code
    ensures loc in pend ==> Held(code', loc, r) == Held(code, loc, r)
  {
    if loc in pend && loc >= 1 {
      assert SafeAt(body, pend, loc - 1);
      assert code'[loc - 1] == code'[loc - 1] && body[loc - 1] == code[loc - 1];
    }
  }

  lemma RelinkedTests(rel: Relation, sn: Snap, c: Claim, b: bool, code': seq<Instr>)
    requires Safe(sn.code, sn.pend) && Tests(rel, sn, c, b) && Fits(c, |sn.code|)
    requires Relinked(sn.code, code', sn.pend) && sn.tl <= sn.pend && sn.fl <= sn.pend && sn.jl <= sn.pend
    ensures Safe(code', sn.pend) && Tests(rel, sn.(code := code'), c, b)
  {
    var sn' := sn.(code := code');
    RelinkedSafe(sn.code, code', sn.pend);
    forall kf, i, r: Regs | sn'.k <= kf && (i == c.start || i in c.entry)
      ensures var (loc, r1) := Exec(rel, kf, sn'.code, sn'.pend, i, Stored(sn'.code, i, r));
              Leaves(rel, sn', c, b, CarryAt(c, i, r), r, loc, r1)
    {
      RelinkedExec(rel, kf, sn.code, code', sn.pend, i, r);
      TestsAt(rel, sn, c, b, kf, i, r);
      var (loc, r1) := Exec(rel, kf, sn.code, sn.pend, i, Stored(sn.code, i, r));
      RelinkedHeld(sn.code, code', sn.pend, sn.code, loc, r1);
    }
  }

  lemma RelinkedSafe(code: seq<Instr>, code': seq<Instr>, pend: set<nat>)
    requires Safe(code, pend) && Relinked(code, code', pend)
    ensures Safe(code', pend) && Refines(code, pend, code', pend)
  {
    forall j | 0 <= j <= |code| ensures Controlled(code', j) == Controlled(code, j) {
      if j >= 1 { assert code'[j - 1] == code'[j - 1]; }
    }
    forall i | 0 <= i < |code| ensures SafeAt(code', pend, i) && (i !in pend ==> Similar(code, code', pend, i)) {
      assert SafeAt(code, pend, i);
      assert code'[i] == code'[i];
    }
    forall i | 0 <= i < |code| && i in pend ensures code'[i].Jmp? {}
  }

  lemma RelinkedExec(rel: Relation, kf: seq<Value>, code: seq<Instr>, code': seq<Instr>, pend: set<nat>, i: nat,
                     r: Regs)
    requires Safe(code, pend) && Relinked(code, code', pend) && i <= |code|
    ensures Exec(rel, kf, code', pend, i, Stored(code', i, r)) == Exec(rel, kf, code, pend, i, Stored(code, i, r))
  {
    var r0 := Stored(code, i, r);
    RelinkedSafe(code, code', pend);
    if i >= 1 { assert SafeAt(code, pend, i - 1) && code'[i - 1] == code'[i - 1]; }
    if i !in pend { ExecRefines(rel, kf, code, pend, code', pend, i, r0); }
    ExecStops(rel, kf, code, pend, i, r0);
    var (loc, r1) := Exec(rel, kf, code, pend, i, r0);
    if loc in pend && loc >= 1 {
      assert SafeAt(code, pend, loc - 1) && code'[loc - 1] == code'[loc - 1];
    }
  }

  // ---------- comparisons ----------

  // The first operand in place: it still tells what the jumps behind it bring, or they bring nothing.
  ghost predicate Operands(sn1: Snap, c: Claim) {
    && sn1.tl == {} && sn1.fl == {} && (sn1.kind.VNonReloc? || sn1.kind.VK?)
    && (c.mode.Fresh? || (c.mode.Done? && Plain(sn1.code, sn1.jl)))
  }

  // Two operands in sequence, then the comparison and its jump.
  lemma CompareMeans(rel: Relation, sn1: Snap, c: Claim, nact: nat, sn2: Snap, z: Term, keep: nat,
                     op: RelOp, test: Instr, sn': Snap)
    requires SnapOk(sn1, nact) && Means(rel, sn1, c) && Operands(sn1, c)
    requires Fits(c, |sn1.code|) && c.save == -1 && LeavesOnly(z) && LocalsBelow(Source(z), c.keep)
             && c.keep <= keep <= 256
    requires sn1.kind.VNonReloc? ==> sn1.kind.r < keep
    requires Keeps(sn1.code, sn1.pend, sn1.jl, |sn1.code|, sn2.code, sn2.pend)
    requires SnapOk(sn2, nact) && Means(rel, sn2, Behind(sn1.code, sn1.jl, z, keep).(mode := Done))
    requires sn2.tl == {} && sn2.fl == {} && (sn2.kind.VNonReloc? || sn2.kind.VK?)
    requires sn1.k <= sn2.k && test.Cmp?
    requires forall kf, r {:trigger RKValue(kf, r, test.rb)} :: sn2.k <= kf ==>
               (rel(test.op, RKValue(kf, r, test.rb), RKValue(kf, r, test.rc)) == test.cond <==>
                Holds(rel, op, TailValue(rel, kf, sn1.code, sn1.kind, r), TailValue(rel, kf, sn2.code, sn2.kind, r)))
    requires sn' == Snap(Landed(sn2.code, sn2.jl) + [test, Jmp(NO_JUMP)], sn2.k, sn2.pend - sn2.jl,
                         VJmp(|sn2.code| + 1), {}, {}, {})
    ensures SnapOk(sn', nact) && Means(rel, sn', c.(x := CompareOf(op, c.x, z, c.mode.Fresh?), mode := Fresh))
  {
    hide Delivers, Course, Holds, Patched, Operands;
    var c' := c.(x := CompareOf(op, c.x, z, c.mode.Fresh?), mode := Fresh);
    var body := Landed(sn2.code, sn2.jl);
    assert Body(sn'.code, sn'.kind) == body;
    LandedSafe(sn2.code, sn2.pend, sn2.jl, [], sn'.pend);
    assert body + [] == body;
    forall kf, i, r: Regs | sn'.k <= kf && (i == c.start || i in c.entry)
      ensures var (loc, r1) := Exec(rel, kf, body, sn'.pend, i, Stored(body, i, r));
              Delivers(rel, kf, sn', c', CarryAt(c, i, r), r, loc, r1)
    {
      CompareRun(rel, kf, sn1, c, nact, sn2, z, keep, i, r);
      var (loc2, r2) := Exec(rel, kf, sn2.code, sn2.pend, i, Stored(sn2.code, i, r));
      Arrive(rel, kf, sn2.code, sn2.pend, sn2.jl, [], sn'.pend, i, r);
      assert Exec(rel, kf, body, sn'.pend, i, Stored(body, i, r)) == (|body|, r2);
      CompareDelivers(rel, kf, sn1, c, sn2, z, op, test, sn', CarryAt(c, i, r), r, r2);
    }
  }

  lemma CompareDelivers(rel: Relation, kf: seq<Value>, sn1: Snap, c: Claim, sn2: Snap, z: Term,
                        op: RelOp, test: Instr, sn': Snap, d: Carry, r: Regs, r2: Regs)
    requires sn1.k <= sn2.k <= kf && test.Cmp? && Kept(c, r, r2)
    requires sn' == Snap(Landed(sn2.code, sn2.jl) + [test, Jmp(NO_JUMP)], sn2.k, sn2.pend - sn2.jl,
                         VJmp(|sn2.code| + 1), {}, {}, {})
    requires rel(test.op, RKValue(kf, r2, test.rb), RKValue(kf, r2, test.rc)) == test.cond <==>
             Holds(rel, op, TailValue(rel, kf, sn1.code, sn1.kind, r2), TailValue(rel, kf, sn2.code, sn2.kind, r2))
    requires var w := Course(rel, c.x, r, d);
             var d' := if c.mode.Fresh? && w.Through? then w.carry else Nothing;
             && TailValue(rel, kf, sn1.code, sn1.kind, r2) == w.Result()
             && TailValue(rel, kf, sn2.code, sn2.kind, r2) == Course(rel, z, r, d').Result()
    ensures Delivers(rel, kf, sn', c.(x := CompareOf(op, c.x, z, c.mode.Fresh?), mode := Fresh), d, r, |sn2.code|, r2)
  {
    hide Holds;
  }

  // Both operands have their values when the second one is complete.
  lemma CompareRun(rel: Relation, kf: seq<Value>, sn1: Snap, c: Claim, nact: nat, sn2: Snap, z: Term, keep: nat,
                   i: nat, r: Regs)
    requires SnapOk(sn1, nact) && Means(rel, sn1, c) && Operands(sn1, c)
    requires Fits(c, |sn1.code|) && c.save == -1 && LeavesOnly(z) && LocalsBelow(Source(z), c.keep)
             && c.keep <= keep <= 256
    requires sn1.kind.VNonReloc? ==> sn1.kind.r < keep
    requires Keeps(sn1.code, sn1.pend, sn1.jl, |sn1.code|, sn2.code, sn2.pend)
    requires SnapOk(sn2, nact) && Means(rel, sn2, Behind(sn1.code, sn1.jl, z, keep).(mode := Done))
    requires sn2.tl == {} && sn2.fl == {} && (sn2.kind.VNonReloc? || sn2.kind.VK?)
    requires sn1.k <= sn2.k <= kf && (i == c.start || i in c.entry)
    ensures var (loc2, r2) := Exec(rel, kf, sn2.code, sn2.pend, i, Stored(sn2.code, i, r));
            var w := Course(rel, c.x, r, CarryAt(c, i, r));
            var d := if c.mode.Fresh? && w.Through? then w.carry else Nothing;
            && (loc2 == |sn2.code| || loc2 in sn2.jl) && Kept(c, r, r2)
            && TailValue(rel, kf, sn1.code, sn1.kind, r2) == w.Result()
            && TailValue(rel, kf, sn2.code, sn2.kind, r2) == Course(rel, z, r, d).Result()
  {
    hide Step, Lit, Holds, Exec, Course, Stored;
    assert |sn1.code| <= |sn2.code|;
    assert forall j | j in sn1.pend :: j < |sn1.code|;
    hide Means, Safe, Keeps;
    var c2 := Behind(sn1.code, sn1.jl, z, keep).(mode := Done);
    var (loc1, r1) := Exec(rel, kf, sn1.code, sn1.pend, i, Stored(sn1.code, i, r));
    MeansAt(rel, sn1, c, kf, i, r);
    MeansAt(rel, sn2, c2, kf, loc1, r1);
    CourseKept(rel, z, c.keep, r, r1, CarryAt(c2, loc1, r1));
    Continue(rel, kf, sn1.code, sn1.pend, sn1.jl, sn2.code, sn2.pend, |sn2.code|, i, r);
    assert sn2.code[..|sn2.code|] == sn2.code;
  }

  // ---------- putting the value into a register ----------

  // Code after the value of an expression is brought into reg: its false-exits
  // and true-exits go to the end, or to the loads of false and true.
  function Finished(code: seq<Instr>, tl: set<nat>, fl: set<nat>, reg: Reg, pf: int, pt: int): (r: seq<Instr>)
    ensures |r| == |code|
  {
    Patched(Patched(code, fl, |code|, reg, pf), tl, |code|, reg, pt)
  }

  lemma FinishedAt(code: seq<Instr>, tl: set<nat>, fl: set<nat>, reg: Reg, pf: int, pt: int, i: nat)
    requires i < |code| && tl !! fl && reg != NO_REG
    requires forall j | j in tl + fl :: j < |code| && code[j].Jmp?
    ensures Finished(code, tl, fl, reg, pf, pt)[i] ==
            if i in tl then Jmp((if SetsValue(code, i) then |code| else pt) - (i + 1))
            else if i in fl then Jmp((if SetsValue(code, i) then |code| else pf) - (i + 1))
            else if i + 1 in tl + fl && code[i].TestSet? then
              if reg != code[i].b then TestSet(reg, code[i].b, code[i].c) else Test(code[i].b, code[i].c)
            else code[i]
  {
    var code1 := Patched(code, fl, |code|, reg, pf);
    assert code1[i] == PatchedAt(code, fl, |code|, reg, pf, i);
    if i >= 1 { assert code1[i - 1] == PatchedAt(code, fl, |code|, reg, pf, i - 1); }
  }

  // The shape of the code added before patching: nothing when every exit
  // carries its value, else the two loads, skipped by a jump unless falling
  // through means false.
  ghost predicate LoadsAdded(sn: Snap, reg: Reg, extra: seq<Instr>, pf: int, pt: int) {
    var n := |sn.code|;
    || (&& extra == [] && sn.kind == VNonReloc(reg)
        && forall j | j in sn.tl + sn.fl :: SetsValue(sn.code, j))
    || (&& |extra| == 3 && extra[0].Jmp? && extra[1..] == [LoadBool(reg, false, true), LoadBool(reg, true, false)]
        && pf == n + 1 && pt == n + 2 && sn.kind == VNonReloc(reg))
    || (&& extra == [LoadBool(reg, false, true), LoadBool(reg, true, false)]
        && pf == n && pt == n + 1 && sn.kind == VFalse && sn.jl == {})
  }

  lemma FinishedControls(sn: Snap, nact: nat, reg: Reg, extra: seq<Instr>, pf: int, pt: int, j: nat)
    requires SnapOk(sn, nact) && LoadsAdded(sn, reg, extra, pf, pt) && reg != NO_REG
    ensures Controlled(Finished(sn.code + extra, sn.tl, sn.fl, reg, pf, pt), j) ==>
              j < |sn.code| && Controlled(sn.code, j)
  {
    var code := sn.code + extra;
    if 1 <= j < |code| {
      FinishedAt(code, sn.tl, sn.fl, reg, pf, pt, j - 1);
      if j - 1 < |sn.code| { assert SafeAt(sn.code, sn.pend, j - 1); }
    }
  }

  lemma FinishedSafeAt(sn: Snap, nact: nat, reg: Reg, extra: seq<Instr>, pf: int, pt: int, pend': set<nat>, i: nat)
    requires SnapOk(sn, nact) && LoadsAdded(sn, reg, extra, pf, pt) && reg != NO_REG && i < |sn.code + extra|
    requires pend' == sn.pend - sn.tl - sn.fl + (if |extra| == 3 then {|sn.code|} else {})
    ensures var code' := Finished(sn.code + extra, sn.tl, sn.fl, reg, pf, pt);
            && SafeAt(code', pend', i)
            && (i < |sn.code| && i !in sn.pend ==> i !in pend' && Similar(sn.code, code', sn.pend, i))
            && (i < |sn.code| && i in sn.pend ==> code'[i].Jmp?)
            && (i in pend' ==> code'[i].Jmp?)
  {
    hide Finished;
    var code := sn.code + extra;
    var code' := Finished(code, sn.tl, sn.fl, reg, pf, pt);
    FinishedAt(code, sn.tl, sn.fl, reg, pf, pt, i);
    if i + 1 < |code| { FinishedAt(code, sn.tl, sn.fl, reg, pf, pt, i + 1); }
    if i < |sn.code| {
      assert SafeAt(sn.code, sn.pend, i);
      if i in sn.tl + sn.fl { assert SetsValue(code, i) == SetsValue(sn.code, i); }
    }
    forall j: nat ensures Controlled(code', j) ==> j < |sn.code| && Controlled(sn.code, j) {
      FinishedControls(sn, nact, reg, extra, pf, pt, j);
    }
  }

  lemma FinishedSafe(sn: Snap, nact: nat, reg: Reg, extra: seq<Instr>, pf: int, pt: int, pend': set<nat>)
    requires SnapOk(sn, nact) && LoadsAdded(sn, reg, extra, pf, pt) && reg != NO_REG
    requires pend' == sn.pend - sn.tl - sn.fl + (if |extra| == 3 then {|sn.code|} else {})
    ensures Refines(sn.code, sn.pend, Finished(sn.code + extra, sn.tl, sn.fl, reg, pf, pt), pend')
    ensures Safe(Finished(sn.code + extra, sn.tl, sn.fl, reg, pf, pt), pend')
  {
    forall i: nat | i < |sn.code + extra|
      ensures var code' := Finished(sn.code + extra, sn.tl, sn.fl, reg, pf, pt);
              && SafeAt(code', pend', i)
              && (i < |sn.code| && i !in sn.pend ==> i !in pend' && Similar(sn.code, code', sn.pend, i))
              && (i < |sn.code| && i in sn.pend ==> code'[i].Jmp?)
              && (i in pend' ==> code'[i].Jmp?)
    {
      FinishedSafeAt(sn, nact, reg, extra, pf, pt, pend', i);
    }
    assert forall j :: j in pend' ==> j < |sn.code + extra|;
  }

  lemma LoadsExec(rel: Relation, kf: seq<Value>, sn: Snap, nact: nat, reg: Reg, extra: seq<Instr>,
                  pf: int, pt: int, pend': set<nat>, r: Regs)
    requires SnapOk(sn, nact) && LoadsAdded(sn, reg, extra, pf, pt) && reg != NO_REG && extra != []
    requires pend' == sn.pend - sn.tl - sn.fl + (if |extra| == 3 then {|sn.code|} else {})
    ensures var code' := Finished(sn.code + extra, sn.tl, sn.fl, reg, pf, pt);
            && 0 <= pf < pt < |code'|
            && Exec(rel, kf, code', pend', pf, r) == (|code'|, r[reg := Bool(false)])
            && Exec(rel, kf, code', pend', pt, r) == (|code'|, r[reg := Bool(true)])
  {
    var code := sn.code + extra;
    var code' := Finished(code, sn.tl, sn.fl, reg, pf, pt);
    FinishedAt(code, sn.tl, sn.fl, reg, pf, pt, pf);
    FinishedAt(code, sn.tl, sn.fl, reg, pf, pt, pt);
    assert code[pf] == extra[|extra| - 2] && code[pt] == extra[|extra| - 1];
    if |extra| == 3 { assert extra[1] == extra[1..][0] && extra[2] == extra[1..][1]; }
    assert code'[pf] == LoadBool(reg, false, true) && code'[pt] == LoadBool(reg, true, false);
    assert pf !in pend' && pt !in pend';
  }

  lemma ExitStores(rel: Relation, kf: seq<Value>, sn: Snap, nact: nat, reg: Reg, extra: seq<Instr>,
                   pf: int, pt: int, pend': set<nat>, j: nat, r1: Regs)
    requires SnapOk(sn, nact) && LoadsAdded(sn, reg, extra, pf, pt) && reg != NO_REG && j in sn.tl + sn.fl
    requires pend' == sn.pend - sn.tl - sn.fl + (if |extra| == 3 then {|sn.code|} else {})
    ensures var code' := Finished(sn.code + extra, sn.tl, sn.fl, reg, pf, pt);
            Exec(rel, kf, code', pend', j, Stored(code', j, r1)) ==
            (|code'|, r1[reg := Exit(j in sn.tl, Held(sn.code, j, r1)).Result()])
  {
    hide Finished;
    var code := sn.code + extra;
    var code' := Finished(code, sn.tl, sn.fl, reg, pf, pt);
    var r2 := Stored(code', j, r1);
    FinishedAt(code, sn.tl, sn.fl, reg, pf, pt, j);
    assert SetsValue(code, j) == SetsValue(sn.code, j);
    if j >= 1 { FinishedAt(code, sn.tl, sn.fl, reg, pf, pt, j - 1); }
    if SetsValue(sn.code, j) {
      assert r2 == r1[reg := r1[sn.code[j - 1].b]];
    } else {
      LoadsExec(rel, kf, sn, nact, reg, extra, pf, pt, pend', r2);
      assert r2 == r1;
    }
  }

  // From every exit and from falling through, the finished code reaches its end
  // (or the jump that skips the loads) with the value in reg.
  lemma FinishedExit(rel: Relation, kf: seq<Value>, sn: Snap, nact: nat, c: Claim, reg: Reg, extra: seq<Instr>,
                     pf: int, pt: int, pend': set<nat>, d: Carry, r: Regs, loc: nat, r1: Regs)
    requires SnapOk(sn, nact) && LoadsAdded(sn, reg, extra, pf, pt) && reg != NO_REG
    requires reg >= c.keep || reg == c.save
    requires pend' == sn.pend - sn.tl - sn.fl + (if |extra| == 3 then {|sn.code|} else {})
    requires Delivers(rel, kf, sn, c, d, r, loc, r1)
    ensures var code' := Finished(sn.code + extra, sn.tl, sn.fl, reg, pf, pt);
            var (loc', r') := Exec(rel, kf, code', pend', loc, if loc in sn.pend then Stored(code', loc, r1) else r1);
            && Kept(c, r, r') && r'[reg] == Course(rel, c.x, r, d).Result()
            && (loc' == |code'| || loc' in sn.jl || (|extra| == 3 && loc' == |sn.code|))
  {
    hide Course, Finished, LoadsAdded, Exec, Stored, Controlled, SafeAt;
    if loc in sn.tl + sn.fl {
      ExitStores(rel, kf, sn, nact, reg, extra, pf, pt, pend', loc, r1);
    } else if loc in sn.jl {
      LandingStays(rel, kf, sn, nact, reg, extra, pf, pt, pend', loc, r1);
    } else {
      PassingLoads(rel, kf, sn, nact, reg, extra, pf, pt, pend', r1);
      assert loc !in sn.pend;
    }
  }

  // A jump aimed at the end of the expression stays pending.
  lemma LandingStays(rel: Relation, kf: seq<Value>, sn: Snap, nact: nat, reg: Reg, extra: seq<Instr>,
                     pf: int, pt: int, pend': set<nat>, j: nat, r1: Regs)
    requires SnapOk(sn, nact) && LoadsAdded(sn, reg, extra, pf, pt) && reg != NO_REG && j in sn.jl
    requires pend' == sn.pend - sn.tl - sn.fl + (if |extra| == 3 then {|sn.code|} else {})
    ensures sn.kind == VNonReloc(reg)
    ensures var code' := Finished(sn.code + extra, sn.tl, sn.fl, reg, pf, pt);
            Exec(rel, kf, code', pend', j, Stored(code', j, r1)) == (j, r1)
  {
    hide Finished;
    var code := sn.code + extra;
    FinishedAt(code, sn.tl, sn.fl, reg, pf, pt, j);
    if j >= 1 {
      FinishedAt(code, sn.tl, sn.fl, reg, pf, pt, j - 1);
      assert SafeAt(sn.code, sn.pend, j - 1);
    }
  }

  // Falling through goes to the jump over the loads, or to the load of false.
  lemma PassingLoads(rel: Relation, kf: seq<Value>, sn: Snap, nact: nat, reg: Reg, extra: seq<Instr>,
                     pf: int, pt: int, pend': set<nat>, r1: Regs)
    requires SnapOk(sn, nact) && LoadsAdded(sn, reg, extra, pf, pt) && reg != NO_REG
    requires pend' == sn.pend - sn.tl - sn.fl + (if |extra| == 3 then {|sn.code|} else {})
    ensures Body(sn.code, sn.kind) == sn.code
    ensures var code' := Finished(sn.code + extra, sn.tl, sn.fl, reg, pf, pt);
            var (loc', r') := Exec(rel, kf, code', pend', |sn.code|, r1);
            && r' == r1[reg := TailValue(rel, kf, sn.code, sn.kind, r1)]
            && (loc' == |code'| || (|extra| == 3 && loc' == |sn.code|))
  {
    hide Finished;
    if extra != [] { LoadsExec(rel, kf, sn, nact, reg, extra, pf, pt, pend', r1); }
  }

  // Finishing changes only the controls of the exits.
  lemma FinishedStored(sn: Snap, nact: nat, reg: Reg, extra: seq<Instr>, pf: int, pt: int, i: nat, r: Regs)
    requires SnapOk(sn, nact) && reg != NO_REG && i <= |sn.code| && !sn.kind.VJmp? && !sn.kind.VRelocable?
    ensures i in sn.pend ==> Stored(sn.code, i, r) == r
    ensures i !in sn.pend ==>
              Stored(Finished(sn.code + extra, sn.tl, sn.fl, reg, pf, pt), i, r) == Stored(sn.code, i, r)
  {
    if i >= 1 {
      forall j | j in sn.tl + sn.fl ensures j < |sn.code + extra| && (sn.code + extra)[j].Jmp? {
        assert j < |sn.code| && sn.code[j] == (sn.code + extra)[j];
      }
      FinishedAt(sn.code + extra, sn.tl, sn.fl, reg, pf, pt, i - 1);
      assert SafeAt(sn.code, sn.pend, i - 1);
    }
  }

  lemma FinishedMeans(rel: Relation, sn: Snap, nact: nat, c: Claim, reg: Reg, extra: seq<Instr>,
                      pf: int, pt: int, sn': Snap)
    requires SnapOk(sn, nact) && Means(rel, sn, c) && Fits(c, |sn.code|)
    requires LoadsAdded(sn, reg, extra, pf, pt) && reg != NO_REG && (reg >= c.keep || reg == c.save)
    requires sn' == Snap(Finished(sn.code + extra, sn.tl, sn.fl, reg, pf, pt), sn.k,
                         sn.pend - sn.tl - sn.fl + (if |extra| == 3 then {|sn.code|} else {}), VNonReloc(reg),
                         {}, {}, sn.jl + (if |extra| == 3 then {|sn.code|} else {}))
    ensures SnapOk(sn', nact) && Means(rel, sn', c.(mode := Done))
  {
    hide Finished, Step, Refines, Source, Delivers;
    assert !sn.kind.VJmp? && !sn.kind.VRelocable?;
    hide LoadsAdded;
    FinishedSafe(sn, nact, reg, extra, pf, pt, sn'.pend);
    forall kf, i, r: Regs | sn'.k <= kf && (i == c.start || i in c.entry)
      ensures var (loc, r1) := Exec(rel, kf, sn'.code, sn'.pend, i, Stored(sn'.code, i, r));
              Delivers(rel, kf, sn', c.(mode := Done), CarryAt(c, i, r), r, loc, r1)
    {
      var r0 := Stored(sn.code, i, r);
      var (loc, r1) := Exec(rel, kf, sn.code, sn.pend, i, r0);
      MeansAt(rel, sn, c, kf, i, r);
      FinishedStored(sn, nact, reg, extra, pf, pt, i, r);
      assert Exec(rel, kf, sn'.code, sn'.pend, i, Stored(sn'.code, i, r)) ==
             Exec(rel, kf, sn'.code, sn'.pend, loc, if loc in sn.pend then Stored(sn'.code, loc, r1) else r1) by {
        if i !in sn.pend { ExecRefines(rel, kf, sn.code, sn.pend, sn'.code, sn'.pend, i, r0); }
      }
      FinishedExit(rel, kf, sn, nact, c, reg, extra, pf, pt, sn'.pend, CarryAt(c, i, r), r, loc, r1);
      var (loc', r') := Exec(rel, kf, sn'.code, sn'.pend, i, Stored(sn'.code, i, r));
      FinishedDelivers(rel, kf, sn, c, sn', CarryAt(c, i, r), r, loc', r');
    }
  }

  lemma FinishedDelivers(rel: Relation, kf: seq<Value>, sn: Snap, c: Claim, sn': Snap, d: Carry, r: Regs, loc: nat,
                         r1: Regs)
    requires sn'.kind.VNonReloc? && sn'.tl == {} && sn'.fl == {} && (loc in sn'.jl || loc == |sn'.code|)
    requires Kept(c, r, r1) && r1[sn'.kind.r] == Course(rel, c.x, r, d).Result()
    ensures Delivers(rel, kf, sn', c.(mode := Done), d, r, loc, r1)
  {
  }
}
