// The code generator for boolean and relational expressions: instructions are
// appended, rewritten in place and back-patched in one growing array.
module CodeGen {
  import opened LuaValues
  import opened Bytecode
  import opened Expressions
  import opened ExprMeaning
  import opened JumpLists

  const MAXSTACK: nat := 250

  datatype CompileError = ControlStructureTooLong | ExpressionTooComplex | ConstantTableOverflow

  datatype Outcome = Pass | Fail(error: CompileError) {
    predicate IsFailure() { Fail? }
    function PropagateFailure(): Outcome requires Fail? { this }
  }

  class ExpDesc {
    var k: Kind
    var t: int           // exits when true
    var f: int           // exits when false
    ghost var tl: seq<nat>
    ghost var fl: seq<nat>

    constructor (kind: Kind)
      ensures k == kind && t == f == NO_JUMP && tl == fl == []
    {
      k, t, f := kind, NO_JUMP, NO_JUMP;
      tl, fl := [], [];
    }
  }

  class FuncState {
    var code: seq<Instr>
    var k: seq<Value>
    var jpc: int          // pending jumps to the next instruction
    var freereg: nat
    var nactvar: nat
    var lasttarget: nat
    var maxstacksize: nat
    ghost var jl: seq<nat>
    ghost var pend: set<nat>
    ghost const rel: Relation

    constructor (params: nat, ghost relation: Relation)
      requires params < MAXSTACK
      ensures code == [] && k == [] && jpc == NO_JUMP && jl == [] && pend == {} && rel == relation
      ensures freereg == nactvar == maxstacksize == params
    {
      code, k, jpc, freereg, nactvar, lasttarget, maxstacksize := [], [], NO_JUMP, params, params, 0, params;
      jl, pend := [], {};
      rel := relation;
    }

    // Why code generation gives up: the code, the registers or the constants have become too many.
    ghost predicate Exhausted(error: CompileError)
      reads this
    {
      match error
      case ControlStructureTooLong => |code| > MAXARG_SBX
      case ExpressionTooComplex => freereg + 1 >= MAXSTACK
      case ConstantTableOverflow => |k| >= MAXARG_BX
    }

    // ---------- jump lists ----------

    method FixJump(pc: nat, dest: int) returns (r: Outcome)
      requires pc < |code| && code[pc].Jmp? && dest != NO_JUMP
      modifies this`code
      ensures r.Pass? <==> -131071 <= dest - (pc + 1) <= 131071
      ensures r.Fail? && 0 <= dest <= |code| ==> Exhausted(r.error)
      ensures code == if r.Pass? then old(code)[pc := Jmp(dest - (pc + 1))] else old(code)
      ensures |code| <= |old(code)|
    {
      var offset := dest - (pc + 1);
      if offset > MAXARG_SBX || -offset > MAXARG_SBX {
        return Fail(ControlStructureTooLong);
      }
      code := code[pc := Jmp(offset)];
      return Pass;
    }

    method GetLabel() returns (pc: nat)
      modifies this`lasttarget
      ensures pc == |code| == lasttarget
    {
      lasttarget := |code|;
      pc := |code|;
    }

    method Concat(l1: int, l2: int, ghost xs: seq<nat>, ghost ys: seq<nat>) returns (r: Outcome, l: int)
      requires IsList(code, l1, xs) && IsList(code, l2, ys) && ToSet(xs) !! ToSet(ys)
      modifies this`code
      ensures r.Pass? ==> IsList(code, l, xs + ys) && Relinked(old(code), code, ToSet(xs))
      ensures r.Fail? <==> xs != [] && ys != [] &&
                           var last := xs[|xs| - 1]; !(-MAXARG_SBX <= ys[0] - (last + 1) <= MAXARG_SBX)
      ensures xs == [] || ys == [] ==> code == old(code)
      ensures r.Fail? ==> Exhausted(r.error)
      ensures |code| <= |old(code)|
    {
      if l2 == NO_JUMP {
        assert xs + ys == xs;
        return Pass, l1;
      } else if l1 == NO_JUMP {
        assert xs + ys == ys;
        return Pass, l2;
      }
      assert LinkAt(code, xs, 0);
      var list: nat := l1;
      var next := JumpLink(code, list);
      ghost var i := 0;
      while next != NO_JUMP
        invariant 0 <= i < |xs| && list == xs[i] && LinkAt(code, xs, i) && next == JumpLink(code, list)
        decreases |xs| - i
      {
        assert LinkAt(code, xs, i + 1);
        list := next;
        next := JumpLink(code, list);
        i := i + 1;
      }
      assert list == xs[|xs| - 1];
      ListAppend(code, l1, xs, l2, ys);
      assert list in xs;
      assert LinkAt(code, ys, 0);
      r := FixJump(list, l2);
      l := l1;
    }

    function ControlIndex(pc: nat): (i: nat)
      requires pc < |code|
      reads this
    {
      if pc >= 1 && IsTest(code[pc - 1]) then pc - 1 else pc
    }

    method NeedValue(l: int, ghost xs: seq<nat>) returns (b: bool)
      requires IsList(code, l, xs)
      ensures b <==> exists j | j in xs :: !SetsValue(code, j)
    {
      var list := l;
      ghost var i := 0;
      while list != NO_JUMP
        invariant 0 <= i <= |xs| && list == (if i < |xs| then xs[i] else NO_JUMP)
        invariant forall n | 0 <= n < i :: SetsValue(code, xs[n])
        decreases |xs| - i
      {
        assert LinkAt(code, xs, i);
        if !code[ControlIndex(list)].TestSet? {
          assert xs[i] in xs;
          return true;
        }
        list := JumpLink(code, list);
        i := i + 1;
      }
      return false;
    }

    method PatchTestReg(node: nat, reg: Reg) returns (b: bool)
      requires node < |code| && code[node].Jmp?
      modifies this`code
      ensures b == SetsValue(old(code), node)
      ensures code == if b then old(code)[node - 1 := PatchedAt(old(code), {node}, 0, reg, 0, node - 1)] else old(code)
    {
      var i := ControlIndex(node);
      if !code[i].TestSet? {
        return false;
      }
      if reg != NO_REG && reg != code[i].b {
        code := code[i := TestSet(reg, code[i].b, code[i].c)];
      } else {
        code := code[i := Test(code[i].b, code[i].c)];
      }
      return true;
    }

    method RemoveValues(l: int, ghost xs: seq<nat>)
      requires IsList(code, l, xs)
      modifies this`code
      ensures code == Stripped(old(code), ToSet(xs)) && IsList(code, l, xs)
    {
      hide Stripped;
      var list := l;
      ghost var i := 0;
      while list != NO_JUMP
        invariant 0 <= i <= |xs| && list == (if i < |xs| then xs[i] else NO_JUMP)
        invariant code == Stripped(old(code), ToSet(xs[..i]))
        invariant IsList(code, l, xs)
        decreases |xs| - i
      {
        ghost var before := code;
        assert LinkAt(code, xs, i);
        ListMembers(code, l, xs);
        var _ := PatchTestReg(list, NO_REG);
        ListFrame(before, code, l, xs);
        assert ToSet(xs[..i + 1]) == ToSet(xs[..i]) + {xs[i]};
        assert LinkAt(code, xs, i);
        list := JumpLink(code, list);
        i := i + 1;
      }
      assert xs[..i] == xs;
    }

    method PatchListAux(l: int, vtarget: nat, reg: Reg, dtarget: int, ghost xs: seq<nat>) returns (r: Outcome)
      requires IsList(code, l, xs)
      requires dtarget >= 0 || forall j | j in xs :: SetsValue(code, j)
      modifies this`code
      ensures r.Pass? ==> code == Patched(old(code), ToSet(xs), vtarget, reg, dtarget)
      ensures |code| == |old(code)| && (r.Fail? && vtarget <= |code| && dtarget <= |code| ==> Exhausted(r.error))
    {
      hide Patched, PatchedAt;
      var list := l;
      ghost var i := 0;
      PatchedNone(code, vtarget, reg, dtarget);
      assert ToSet(xs[..0]) == {};
      while list != NO_JUMP
        invariant 0 <= i <= |xs| && list == (if i < |xs| then xs[i] else NO_JUMP)
        invariant |code| == |old(code)|
        invariant code == Patched(old(code), ToSet(xs[..i]), vtarget, reg, dtarget)
        decreases |xs| - i
      {
        ListMembers(old(code), l, xs);
        PatchedNext(old(code), xs, i, vtarget, reg, dtarget);
        assert LinkAt(old(code), xs, i) && xs[i] in xs;
        var next := JumpLink(code, list);
        var sets := PatchTestReg(list, reg);
        if sets {
          :- FixJump(list, vtarget);
        } else {
          :- FixJump(list, dtarget);
        }
        list := next;
        i := i + 1;
      }
      assert xs[..i] == xs;
      return Pass;
    }

    static lemma PatchedNone(code: seq<Instr>, vtarget: int, reg: Reg, dtarget: int)
      ensures Patched(code, {}, vtarget, reg, dtarget) == code
    {
    }

    // One more jump of a list patched; the earlier ones left it and its control alone.
    static lemma PatchedNext(code: seq<Instr>, xs: seq<nat>, i: nat, vtarget: int, reg: Reg, dtarget: int)
      requires i < |xs| && (forall j | j in xs :: j < |code| && code[j].Jmp?)
      requires forall n, m | 0 <= n < m < |xs| :: xs[n] != xs[m]
      ensures var j := xs[i];
              var code1 := Patched(code, ToSet(xs[..i]), vtarget, reg, dtarget);
              var sets := SetsValue(code, j);
              && j < |code| && code1[j] == code[j] && SetsValue(code1, j) == sets
              && Patched(code, ToSet(xs[..i + 1]), vtarget, reg, dtarget) ==
                 (if sets then code1[j - 1 := PatchedAt(code1, {j}, 0, reg, 0, j - 1)] else code1)
                 [j := Jmp((if sets then vtarget else dtarget) - (j + 1))]
    {
      var j := xs[i];
      var code1 := Patched(code, ToSet(xs[..i]), vtarget, reg, dtarget);
      assert j in xs && code1[j] == PatchedAt(code, ToSet(xs[..i]), vtarget, reg, dtarget, j);
      if j >= 1 { assert code1[j - 1] == PatchedAt(code, ToSet(xs[..i]), vtarget, reg, dtarget, j - 1); }
      assert ToSet(xs[..i + 1]) == ToSet(xs[..i]) + {j};
      forall n | 0 <= n < |code| && n in xs[..i + 1] ensures code[n].Jmp? { assert n in xs; }
    }

    // ---------- emitting ----------

    method DischargeJpc() returns (r: Outcome)
      requires IsList(code, jpc, jl)
      modifies this`code, this`jpc, this`jl
      ensures r.Pass? ==> code == Landed(old(code), ToSet(old(jl))) && jpc == NO_JUMP && jl == []
      ensures r.Fail? ==> Exhausted(r.error)
      ensures |code| <= |old(code)|
    {
      var here := |code|;
      :- PatchListAux(jpc, here, NO_REG, here, jl);
      jpc, jl := NO_JUMP, [];
      return Pass;
    }

    method Code(i: Instr) returns (r: Outcome, pc: nat)
      requires IsList(code, jpc, jl)
      modifies this`code, this`jpc, this`jl
      ensures r.Pass? ==> code == Landed(old(code), ToSet(old(jl))) + [i] && pc == |old(code)|
                          && jpc == NO_JUMP && jl == []
      ensures r.Fail? ==> Exhausted(r.error)
      ensures |code| <= |old(code)| + 1
    {
      pc := 0;
      :- DischargeJpc();
      code := code + [i];
      return Pass, |code| - 1;
    }

    // An unconditional jump; the jumps aimed here join its list instead of landing on it.
    method Jump() returns (r: Outcome, j: int, ghost xs: seq<nat>)
      requires IsList(code, jpc, jl)
      modifies this`code, this`jpc, this`jl
      ensures r.Pass? ==> |code| == |old(code)| + 1 && code[..|old(code)|] == old(code) && code[|old(code)|].Jmp?
                          && xs == [|old(code)|] + old(jl) && IsList(code, j, xs) && jpc == NO_JUMP && jl == []
                          && ToSet(xs) == {|old(code)|} + ToSet(old(jl))
      ensures r.Pass? && old(jl) == [] ==> code == old(code) + [Jmp(NO_JUMP)]
      ensures r.Fail? ==> Exhausted(r.error)
      ensures |code| <= |old(code)| + 1
    {
      var pending := jpc;
      ghost var ys := jl;
      xs, j := [], NO_JUMP;
      jpc, jl := NO_JUMP, [];
      j :- Code(Jmp(NO_JUMP));
      assert Landed(old(code), ToSet([])) == old(code) by { assert ToSet([]) == {}; LandedNothing(old(code)); }
      xs := [|old(code)|];
      ListMembers(old(code), pending, ys);
      ListFrame(old(code), code, pending, ys);
      assert IsList(code, j, xs) by { assert LinkAt(code, xs, 0); }
      ghost var before := code;
      j :- Concat(j, pending, xs, ys);
      xs := xs + ys;
      assert code[..|old(code)|] == old(code) by {
        forall n | 0 <= n < |old(code)| ensures code[n] == old(code)[n] { assert code[n] == before[n]; }
      }
      return Pass, j, xs;
    }

    method CondJump(test: Instr) returns (r: Outcome, j: int)
      requires IsList(code, jpc, jl)
      modifies this`code, this`jpc, this`jl
      ensures r.Pass? ==> code == Landed(old(code), ToSet(old(jl))) + [test, Jmp(NO_JUMP)]
                          && j == |old(code)| + 1 && jpc == NO_JUMP && jl == []
      ensures r.Fail? ==> Exhausted(r.error)
      ensures |code| <= |old(code)| + 2
    {
      j := 0;
      var _ :- Code(test);
      ghost var xs;
      j, xs :- Jump();
      return Pass, j;
    }

    // ---------- registers and constants ----------

    method CheckStack(n: nat) returns (r: Outcome)
      modifies this`maxstacksize
      ensures r.Fail? <==> freereg + n > old(maxstacksize) && freereg + n >= 250
      ensures r.Fail? && n == 1 ==> Exhausted(r.error)
      ensures r.Pass? ==> maxstacksize == if freereg + n > old(maxstacksize) then freereg + n else old(maxstacksize)
    {
      var newstack := freereg + n;
      if newstack > maxstacksize {
        if newstack >= MAXSTACK {
          return Fail(ExpressionTooComplex);
        }
        maxstacksize := newstack;
      }
      return Pass;
    }

    method ReserveRegs(n: nat) returns (r: Outcome)
      requires maxstacksize < MAXSTACK
      modifies this`maxstacksize, this`freereg
      ensures r.Pass? ==> freereg == old(freereg) + n <= maxstacksize < MAXSTACK
      ensures r.Fail? && n == 1 ==> Exhausted(r.error)
      ensures freereg <= old(freereg) + n
    {
      var top := freereg + n;
      :- CheckStack(n);
      freereg := top;
      return Pass;
    }

    // A constant already in the table is reused.
    method AddK(v: Value) returns (r: Outcome, idx: nat)
      modifies this`k
      ensures r.Pass? ==> old(k) <= k && idx < |k| && idx <= |old(k)| && k[idx] == v && (v in old(k) ==> k == old(k))
      ensures r.Fail? <==> v !in old(k) && |old(k)| >= 262143
      ensures r.Fail? ==> Exhausted(r.error)
      ensures |k| <= |old(k)| + 1
    {
      idx := 0;
      while idx < |k|
        invariant idx <= |k| && forall n | 0 <= n < idx :: k[n] != v
      {
        if k[idx] == v { return Pass, idx; }
        idx := idx + 1;
      }
      if |k| >= MAXARG_BX {
        return Fail(ConstantTableOverflow), 0;
      }
      k := k + [v];
      return Pass, |k| - 1;
    }

    // ---------- expressions ----------

    ghost function Sn(e: ExpDesc): Snap
      reads this`code, this`k, this`jpc, this`jl, this`pend, e
    {
      Snap(code, k, pend, e.k, ToSet(e.tl), ToSet(e.fl), ToSet(jl))
    }

    ghost predicate Linked(e: ExpDesc)
      reads this`code, this`k, this`jpc, this`jl, this`pend, e
    {
      IsList(code, jpc, jl) && IsList(code, e.t, e.tl) && IsList(code, e.f, e.fl)
    }

    ghost predicate Limits(c: Claim)
      reads this`nactvar, this`maxstacksize
    {
      nactvar <= c.keep < MAXSTACK && maxstacksize < MAXSTACK && (c.save == -1 || c.save < MAXSTACK)
    }

    ghost predicate Within(e: ExpDesc, c: Claim)
      reads this`code, this`k, this`jpc, this`jl, this`pend, this`nactvar, this`maxstacksize, e
    {
      Limits(c) && Placed(c, Sn(e))
    }

    // e stands for the expression of the claim, about to be used.
    ghost predicate Ready(e: ExpDesc, c: Claim)
      reads this`code, this`k, this`jpc, this`jl, this`pend, this`nactvar, this`maxstacksize, e
    {
      && Linked(e) && Within(e, c) && c.start <= |Body(code, e.k)|
      && SnapOk(Sn(e), nactvar) && Means(rel, Sn(e), c)
    }

    // Registers: a value is in a local, or in the one register reserved for it.
    ghost predicate Home(e: ExpDesc, c: Claim)
      reads this, e
    {
      && freereg < MAXSTACK
      && if e.k.VNonReloc? && e.k.r >= nactvar then e.k.r == c.keep && freereg == c.keep + 1 else freereg == c.keep
    }

    ghost predicate Moved(c: Claim, code0: seq<Instr>, pend0: set<nat>, k0: seq<Value>, n0: nat)
      reads this
    {
      && c.start <= |code0| && (c.start >= 1 ==> !IsTest(code0[c.start - 1]))
      && Keeps(code0, pend0, c.entry, c.start, code, pend) && k0 <= k && nactvar == n0
    }

    // Two changes in a row; code1, pend1 and k1 are the state between them.
    lemma MovedTwice(c: Claim, code0: seq<Instr>, pend0: set<nat>, k0: seq<Value>,
                     code1: seq<Instr>, pend1: set<nat>, k1: seq<Value>, n: nat)
      requires c.start <= |code0| && (c.start >= 1 ==> !IsTest(code0[c.start - 1]))
      requires Keeps(code0, pend0, c.entry, c.start, code1, pend1) && k0 <= k1
      requires Moved(c, code1, pend1, k1, n)
      ensures Moved(c, code0, pend0, k0, n)
    {
      KeepsTransitive(code0, pend0, c.entry, c.start, code1, pend1, c.entry, c.start, code, pend);
    }

    // Where code is kept, claims stay placed.
    lemma KeptPlaced(c: Claim, sn: Snap, sn': Snap, c': Claim)
      requires Placed(c, sn) && c' == c.(x := c'.x, mode := c'.mode)
      requires Keeps(sn.code, sn.pend, c.entry, c.start, sn'.code, sn'.pend)
      requires forall j | j in sn'.tl + sn'.fl + sn'.jl :: j in sn.tl + sn.fl + sn.jl || j >= c.start
      ensures Placed(c', sn') && c.start <= |sn'.code|
      ensures c.start <= |sn.code| && (c.start >= 1 ==> !IsTest(sn.code[c.start - 1]))
    {
      if c.start >= 1 { assert sn'.code[c.start - 1] == sn'.code[c.start - 1]; }
      forall j | j in c.entry ensures j < c.start && sn'.code[j].Jmp? {
        assert KeepsAt(sn.code, sn.pend, c.entry, c.start, sn'.code, sn'.pend, j);
      }
      forall j | j in sn'.jl || j in sn'.tl || j in sn'.fl ensures j >= c.start || j in c.entry {
        assert j in sn'.tl + sn'.fl + sn'.jl;
      }
    }

    lemma LandedKeeps(sn: Snap, c: Claim, tail: seq<Instr>, pend': set<nat>)
      requires SnapOk(sn, nactvar) && c.start <= |Body(sn.code, sn.kind)| && Placed(c, sn)
      requires forall j | j < c.start :: j in pend' <==> j in sn.pend && j !in sn.jl
      requires sn.kind.VJmp? ==> |tail| >= 2 && !tail[0].TestSet?
      requires sn.kind.VRelocable? ==> |tail| >= 1
      ensures Keeps(sn.code, sn.pend, c.entry, c.start, Landed(Body(sn.code, sn.kind), sn.jl) + tail, pend')
    {
      var body := Body(sn.code, sn.kind);
      var code' := Landed(body, sn.jl) + tail;
      forall i | 0 <= i < c.start ensures KeepsAt(sn.code, sn.pend, c.entry, c.start, code', pend', i) {
        assert SafeAt(body, sn.pend, i) && body[i] == sn.code[i];
      }
    }

    // An operand of a comparison that needs no more code.
    ghost predicate Operand(e: ExpDesc)
      reads e
    {
      && e.t == e.f == NO_JUMP && e.tl == e.fl == []
      && (e.k.VNonReloc? || (e.k.VK? && e.k.i <= MAXINDEXRK))
    }

    method DischargeVars(e: ExpDesc, ghost c: Claim)
      requires Ready(e, c) || Operand(e)
      modifies e`k
      ensures old(Ready(e, c)) ==> Ready(e, c) && (old(Home(e, c)) ==> Home(e, c))
      ensures e.k == if old(e.k).VLocal? then VNonReloc(old(e.k).r) else old(e.k)
    {
      if e.k.VLocal? {
        assert Means(rel, Sn(e), c);
        e.k := VNonReloc(e.k.r);
        assert Means(rel, old(Sn(e)), c);
      }
    }

    method FreeReg(reg: nat)
      requires reg >= nactvar ==> freereg == reg + 1
      modifies this`freereg
      ensures freereg == if reg >= nactvar then reg else old(freereg)
      ensures freereg <= old(freereg)
    {
      if reg >= nactvar {
        freereg := freereg - 1;
      }
    }

    method FreeExp(e: ExpDesc)
      requires e.k.VNonReloc? && e.k.r >= nactvar ==> freereg == e.k.r + 1
      modifies this`freereg
      ensures freereg == if e.k.VNonReloc? && e.k.r >= nactvar then e.k.r else old(freereg)
      ensures freereg <= old(freereg)
    {
      if e.k.VNonReloc? { FreeReg(e.k.r); }
    }

    // Emits the load of a value; the jumps aimed here land on it.
    method EmitLoad(e: ExpDesc, ld: Instr, reg: Reg, ghost c: Claim) returns (r: Outcome)
      requires Ready(e, c) && !e.k.VJmp? && !e.k.VRelocable?
      requires reg >= c.keep || reg == c.save
      requires LoadOf(rel, Sn(e), ld, reg)
      modifies this`code, this`jpc, this`jl, this`pend, e`k
      ensures r.Pass? ==> Ready(e, c.(mode := Landed1(c.mode))) && e.k == VNonReloc(reg)
      ensures r.Pass? ==> Moved(c, old(code), old(pend), old(k), old(nactvar)) && jl == []
      ensures r.Fail? ==> Exhausted(r.error)
      ensures |code| <= |old(code)| + 1
    {
      hide Means, LoadOf, IsList, Keeps, Placed, SafeAt, Landed;
      ghost var sn := Sn(e);
      ghost var pend1 := pend - sn.jl;
      var _ :- Code(ld);
      pend := pend1;
      e.k := VNonReloc(reg);
      LandedList(sn.code, sn.jl, [ld], e.t, e.tl);
      LandedList(sn.code, sn.jl, [ld], e.f, e.fl);
      LandedKeeps(sn, c, [ld], pend);
      KeptPlaced(c, sn, Sn(e), c.(mode := Landed1(c.mode)));
      EmptyList(code);
      LoadMeans(rel, sn, nactvar, c, ld, reg, Sn(e));
      return Pass;
    }

    // A list of pending jumps survives changes at and after the end of the body.
    lemma BodyList(sn: Snap, l: int, xs: seq<nat>, code': seq<Instr>)
      requires IsList(sn.code, l, xs) && Safe(Body(sn.code, sn.kind), sn.pend) && ToSet(xs) <= sn.pend
      requires |Body(sn.code, sn.kind)| <= |code'| && code'[..|Body(sn.code, sn.kind)|] == Body(sn.code, sn.kind)
      ensures IsList(code', l, xs)
    {
      var body := Body(sn.code, sn.kind);
      forall j | j in xs ensures j < |code'| && (j < |sn.code| ==> code'[j] == sn.code[j]) {
        assert j in ToSet(xs) && j < |body|;
        assert code'[j] == code'[..|body|][j];
      }
      ListFrame(sn.code, code', l, xs);
    }

    // Sets the target register of the last instruction.
    method Relocate(e: ExpDesc, reg: Reg, ghost c: Claim)
      requires Ready(e, c) && e.k.VRelocable? && (reg >= c.keep || reg == c.save)
      modifies this`code, e`k
      ensures Ready(e, c.(mode := Landed1(c.mode))) && e.k == VNonReloc(reg)
      ensures Moved(c, old(code), old(pend), old(k), old(nactvar)) && jl == []
      ensures |code| <= |old(code)|
    {
      hide Means;
      ToSetHead(jl);
      ghost var sn := Sn(e);
      ghost var body := Body(code, e.k);
      var ins := Instr.Not(reg, code[e.k.pc].b);
      code := code[e.k.pc := ins];
      e.k := VNonReloc(reg);
      LandedNothing(body);
      assert code == body + [ins];
      BodyList(sn, jpc, jl, code);
      BodyList(sn, e.t, e.tl, code);
      BodyList(sn, e.f, e.fl, code);
      LandedKeeps(sn, c, [ins], pend);
      LoadMeans(rel, sn, nactvar, c, ins, reg, Sn(e));
    }

    // The instruction that loads a constant or copies a register.
    method LoadFor(e: ExpDesc, reg: Reg, ghost c: Claim) returns (r: Outcome, ld: Instr)
      requires Ready(e, c) && !e.k.VJmp? && !e.k.VRelocable? && !e.k.VLocal?
      modifies this`k
      ensures r.Pass? ==> Ready(e, c) && LoadOf(rel, Sn(e), ld, reg) && old(k) <= k
      ensures r.Fail? ==> Exhausted(r.error)
      ensures |k| <= |old(k)| + 1
    {
      r, ld := Pass, LoadBool(reg, e.k.VTrue?, false);
      match e.k {
        case VTrue =>
        case VFalse =>
        case VK(i) => ld := LoadK(reg, i);
        case VKNum(n) =>
          ghost var sn := Sn(e);
          var idx :- AddK(Number(n));
          GrowMeans(rel, sn, nactvar, c, k);
          ld := LoadK(reg, idx);
        case VNonReloc(q) => ld := Move(reg, q);
      }
    }

    method Discharge2Reg(e: ExpDesc, reg: Reg, ghost c: Claim) returns (r: Outcome)
      requires Ready(e, c) && (reg >= c.keep || reg == c.save)
      modifies this`code, this`jpc, this`jl, this`pend, this`k, e`k
      ensures r.Pass? ==> Ready(e, c.(mode := Landed1(c.mode))) && Moved(c, old(code), old(pend), old(k), old(nactvar))
      ensures r.Pass? ==> e.k == if old(e.k).VJmp? then old(e.k) else VNonReloc(reg)
      ensures r.Pass? ==> jl == [] || (jl == old(jl) && code == old(code))
      ensures r.Pass? && Elsewhere(old(e.k), reg) ==> jl == []
      ensures r.Fail? ==> Exhausted(r.error)
      ensures |code| <= |old(code)| + 1 && |k| <= |old(k)| + 1
    {
      hide Ready, Keeps, LoadOf;
      DischargeVars(e, c);
      Less(e, c, Landed1(c.mode));
      if e.k.VJmp? || e.k == VNonReloc(reg) {
        if e.k.VJmp? { LoneJump(e, c); }
        Unmoved(e, c);
        return Pass;
      } else if e.k.VRelocable? {
        Relocate(e, reg, c);
        return Pass;
      }
      var ld :- LoadFor(e, reg, c);
      r := EmitLoad(e, ld, reg, c);
    }

    // The value is not in the register yet.
    static predicate Elsewhere(kind: Kind, reg: Reg) { kind != VLocal(reg) && kind != VNonReloc(reg) }

    lemma Unmoved(e: ExpDesc, c: Claim)
      requires Ready(e, c)
      ensures Moved(c, code, pend, k, nactvar)
    {
      hide Means;
      KeepsSelf(code, pend, c.entry, c.start, code, pend);
    }

    lemma Less(e: ExpDesc, c: Claim, m: Mode)
      requires Ready(e, c) && (m == c.mode || c.mode.Fresh? || m.Done?)
      ensures Ready(e, c.(mode := m))
    {
      MeansLess(rel, Sn(e), c, m);
    }

    method Discharge2AnyReg(e: ExpDesc, ghost c: Claim) returns (r: Outcome)
      requires Ready(e, c) && Home(e, c) && !e.k.VJmp?
      modifies this`code, this`jpc, this`jl, this`pend, this`k, this`freereg, this`maxstacksize, e`k
      ensures r.Pass? ==>
                Ready(e, c.(mode := Landed1(c.mode))) && Home(e, c)
                  && Moved(c, old(code), old(pend), old(k), old(nactvar))
      ensures r.Pass? ==> e.k.VNonReloc?
      ensures r.Fail? ==> Exhausted(r.error)
      ensures |code| <= |old(code)| + 1 && |k| <= |old(k)| + 1 && freereg <= old(freereg) + 1
    {
      if !e.k.VNonReloc? {
        :- ReserveRegs(1);
        :- Discharge2Reg(e, freereg - 1, c);
      } else {
        Less(e, c, Landed1(c.mode));
        KeepsSelf(code, pend, c.entry, c.start, code, pend);
      }
      return Pass;
    }

    // ---------- tests ----------

    // The snapshot after a test of e whose exits of truth b get the jumps xs as well,
    // and whose other exits are aimed at the next instruction.
    ghost function ForkSn(e: ExpDesc, b: bool, xs: seq<nat>): Snap
      reads this, e
    {
      Snap(code, k, pend, e.k,
           if b then ToSet(e.tl) + ToSet(xs) else {},
           if b then {} else ToSet(e.fl) + ToSet(xs),
           ToSet(jl) + ToSet(if b then e.fl else e.tl))
    }

    // The test is emitted; its new jumps xs are not yet in a list of e.
    ghost predicate Forked(e: ExpDesc, c: Claim, b: bool, j: int, xs: seq<nat>)
      reads this, e
    {
      && Linked(e) && Within(e, c) && c.start <= |code| && freereg == c.keep
      && IsList(code, j, xs) && ToSet(xs) <= pend
      && (forall n :: n in ToSet(xs) ==> n >= c.start || n in c.entry)
      && ToSet(xs) !! (ToSet(e.tl) + ToSet(e.fl) + ToSet(jl))
      && ToSet(e.tl) <= pend && ToSet(e.fl) <= pend && ToSet(jl) <= pend
      && ToSet(e.tl) !! ToSet(e.fl) && ToSet(e.tl) !! ToSet(jl) && ToSet(e.fl) !! ToSet(jl)
      && Safe(code, pend) && Tests(rel, ForkSn(e, b, xs), c, b)
    }

    // Emits a test of the value and a jump taken when its truth is b.
    method EmitTest(e: ExpDesc, b: bool, test: Instr, ghost c: Claim) returns (r: Outcome, j: int)
      requires Ready(e, c) && !e.k.VJmp? && freereg == c.keep
      requires TestOf(rel, Sn(e), b, test) && FitTest(Lit(Source(c.x)), b, test) && !c.mode.Done?
      modifies this`code, this`jpc, this`jl, this`pend
      ensures r.Pass? ==> j >= 0 && Forked(e, c, b, j, [j]) && jl == []
      ensures r.Pass? ==> Moved(c, old(code), old(pend), old(k), old(nactvar))
      ensures r.Fail? ==> Exhausted(r.error)
      ensures |code| <= |old(code)| + 2
    {
      hide Means, TestOf, FitTest, Keeps, Forked;
      ghost var sn := Sn(e);
      ghost var body := Body(code, e.k);
      BodyList(sn, jpc, jl, body);
      BodyList(sn, e.t, e.tl, body);
      BodyList(sn, e.f, e.fl, body);
      code := Body(code, e.k);
      j :- CondJump(test);
      pend := pend - sn.jl + {|body| + 1};
      LandedList(body, sn.jl, [test, Jmp(NO_JUMP)], e.t, e.tl);
      LandedList(body, sn.jl, [test, Jmp(NO_JUMP)], e.f, e.fl);
      TestForks(e, c, b, test, sn, j);
      return Pass, j;
    }

    // The state after a test has been emitted for sn.
    lemma TestForks(e: ExpDesc, c: Claim, b: bool, test: Instr, sn: Snap, j: nat)
      requires Linked(e) && freereg == c.keep && Limits(c) && Placed(c, sn)
      requires SnapOk(sn, nactvar) && Means(rel, sn, c) && c.start <= |Body(sn.code, sn.kind)|
      requires (sn.kind.VJmp? ==> !test.TestSet?) && FitTest(Lit(Source(c.x)), b, test) && !c.mode.Done?
      requires j == |Body(sn.code, sn.kind)| + 1 && pend == sn.pend - sn.jl + {j} && jl == [] && k == sn.k
               && e.k == sn.kind
      requires code == Landed(Body(sn.code, sn.kind), sn.jl) + [test, Jmp(NO_JUMP)]
      requires ToSet(e.tl) == sn.tl && ToSet(e.fl) == sn.fl
      requires TestOf(rel, sn, b, test)
      ensures Forked(e, c, b, j, [j]) && Keeps(sn.code, sn.pend, c.entry, c.start, code, pend)
    {
      hide Means, Tests, TestOf, Keeps, Placed, SafeAt;
      ghost var tail := [test, Jmp(NO_JUMP)];
      assert IsList(code, j, [j]) by { assert LinkAt(code, [j], 0); }
      LandedKeeps(sn, c, tail, pend);
      KeptPlaced(c, sn, Sn(e), c);
      KeptPlaced(c, sn, ForkSn(e, b, [j]), c);
      assert ToSet([j]) == {j};
      TestMeans(rel, sn, nactvar, c, b, test, ForkSn(e, b, [j]));
      assert Within(e, c);
    }

    method PatchToHere(l: int, ghost xs: seq<nat>) returns (r: Outcome)
      requires IsList(code, jpc, jl) && IsList(code, l, xs) && ToSet(jl) !! ToSet(xs)
      modifies this`code, this`jpc, this`jl, this`lasttarget
      ensures r.Pass? ==> jl == old(jl) + xs && IsList(code, jpc, jl) && Relinked(old(code), code, ToSet(old(jl)))
      ensures old(jl) == [] ==> code == old(code) && (r.Pass? ==> jl == xs)
      ensures r.Fail? ==> Exhausted(r.error)
      ensures |code| <= |old(code)|
    {
      var _ := GetLabel();
      ghost var ys := jl;
      jpc :- Concat(jpc, l, ys, xs);
      jl := ys + xs;
      return Pass;
    }

    // Inverts the condition of a comparison that ends the code.
    method InvertJump(e: ExpDesc)
      requires e.k.VJmp? && KindOk(Sn(e), nactvar)
      modifies this`code
      ensures 1 <= e.k.pc < |old(code)| && old(code)[e.k.pc - 1].Cmp?
      ensures var t := old(code)[e.k.pc - 1];
              code == old(code)[e.k.pc - 1 := Cmp(t.op, !t.cond, t.rb, t.rc)]
      ensures |code| <= |old(code)|
    {
      var t := code[e.k.pc - 1];
      code := code[e.k.pc - 1 := Cmp(t.op, !t.cond, t.rb, t.rc)];
    }

    lemma ReadyKind(e: ExpDesc, c: Claim)
      requires Ready(e, c)
      ensures KindOk(Sn(e), nactvar)
    {
    }

    method JumpOnCond(e: ExpDesc, cond: bool, ghost c: Claim) returns (r: Outcome, j: int)
      requires Ready(e, c) && Home(e, c) && !e.k.VJmp? && c.mode.Fresh? && Fitted(e, c)
      requires !JumpsAlways(Lit(Source(c.x)), cond) && !Skips(Lit(Source(c.x)), cond)
      modifies this`code, this`jpc, this`jl, this`pend, this`k, this`freereg, this`maxstacksize, e`k
      ensures r.Pass? ==>
                j >= 0 && Forked(e, c, cond, j, [j]) && jl == [] && Moved(c, old(code), old(pend), old(k), old(nactvar))
      ensures r.Fail? ==> Exhausted(r.error)
      ensures |code| <= |old(code)| + 3 && |k| <= |old(k)| + 1 && freereg <= old(freereg) + 1
    {
      hide Ready, Forked, Keeps, TestOf, Step;
      ReadyKind(e, c);
      if e.k.VRelocable? {
        var ie := code[e.k.pc];
        if ie.Not? {
          NotTest(rel, Sn(e), nactvar, cond);
          r, j := EmitTest(e, cond, Test(ie.b, !cond), c);
          return;
        }
      }
      r, j := TestRegister(e, cond, c);
    }

    // The value brought into a register and tested there.
    method TestRegister(e: ExpDesc, cond: bool, ghost c: Claim) returns (r: Outcome, j: int)
      requires Ready(e, c) && Home(e, c) && !e.k.VJmp? && c.mode.Fresh?
      requires FitTest(Lit(Source(c.x)), cond, TestSet(NO_REG, 0, cond))
      modifies this`code, this`jpc, this`jl, this`pend, this`k, this`freereg, this`maxstacksize, e`k
      ensures r.Pass? ==>
                j >= 0 && Forked(e, c, cond, j, [j]) && jl == [] && Moved(c, old(code), old(pend), old(k), old(nactvar))
      ensures r.Fail? ==> Exhausted(r.error)
      ensures |code| <= |old(code)| + 3 && |k| <= |old(k)| + 1 && freereg <= old(freereg) + 1
    {
      hide Ready, Forked, Keeps, TestOf, Lit, Source;
      j := NO_JUMP;
      :- Discharge2AnyReg(e, c);
      FreeExp(e);
      ghost var code1, pend1, k1 := code, pend, k;
      RegisterTest(rel, Sn(e), cond);
      j :- EmitTest(e, cond, TestSet(NO_REG, e.k.r, cond), c.(mode := Landed1(c.mode)));
      SameFork(e, c, Landed1(c.mode), cond, j, [j]);
      MovedTwice(c, old(code), old(pend), old(k), code1, pend1, k1, nactvar);
      return Pass, j;
    }

    // A test is the same whatever the claim before it told.
    lemma SameFork(e: ExpDesc, c: Claim, m: Mode, b: bool, j: int, xs: seq<nat>)
      requires Forked(e, c.(mode := m), b, j, xs)
      ensures Forked(e, c, b, j, xs)
    {
      var sn := ForkSn(e, b, xs);
      forall kf, i, q: Regs | sn.k <= kf && (i == c.start || i in c.entry)
        ensures var (loc, r1) := Exec(rel, kf, sn.code, sn.pend, i, Stored(sn.code, i, q));
                Leaves(rel, sn, c, b, CarryAt(c, i, q), q, loc, r1)
      {
        TestsAt(rel, sn, c.(mode := m), b, kf, i, q);
      }
    }

    // The value is where that of an expression of its kind is.
    ghost predicate Fitted(e: ExpDesc, c: Claim)
      reads e
    {
      KindFits(Lit(Source(c.x)), e.k)
    }

    // After a test: code falls through when the truth of the value is not b, and the
    // exits of truth b are the only ones left.
    ghost predicate Tested(e: ExpDesc, c: Claim, b: bool)
      reads this, e
    {
      && Linked(e) && Within(e, c) && c.start <= |code| && freereg == c.keep
      && (if b then e.fl == [] else e.tl == [])
      && ToSet(e.tl) <= pend && ToSet(e.fl) <= pend && ToSet(jl) <= pend
      && ToSet(e.tl) !! ToSet(jl) && ToSet(e.fl) !! ToSet(jl)
      && Safe(code, pend) && Tests(rel, Sn(e), c, b)
    }

    // Appends the jumps of j to list l and aims those of `other` here.
    method Thread(l: int, j: int, other: int, ghost xl: seq<nat>, ghost xj: seq<nat>, ghost xo: seq<nat>)
      returns (r: Outcome, l': int)
      requires IsList(code, jpc, jl) && IsList(code, l, xl) && IsList(code, j, xj) && IsList(code, other, xo)
      requires ToSet(xj) !! (ToSet(xl) + ToSet(xo) + ToSet(jl)) && ToSet(xl) !! ToSet(xo)
      requires ToSet(xl) !! ToSet(jl) && ToSet(xo) !! ToSet(jl)
      modifies this`code, this`jpc, this`jl, this`lasttarget
      ensures r.Pass? ==> IsList(code, l', xl + xj) && IsList(code, jpc, jl) && jl == old(jl) + xo
                          && Relinked(old(code), code, ToSet(xl) + ToSet(old(jl)))
      ensures r.Fail? ==> Exhausted(r.error)
      ensures |code| <= |old(code)|
    {
      l' :- Concat(l, j, xl, xj);
      RelinkedList(old(code), code, ToSet(xl), jpc, jl);
      RelinkedList(old(code), code, ToSet(xl), other, xo);
      ghost var code1, jl1 := code, ToSet(jl);
      :- PatchToHere(other, xo);
      ToSetAppend(xl, xj);
      RelinkedList(code1, code, jl1, l', xl + xj);
      return Pass, l';
    }

    // Threads the new jumps into the exits of truth b and aims the other exits here.
    method JoinFork(e: ExpDesc, b: bool, j: int, ghost xs: seq<nat>, ghost c: Claim) returns (r: Outcome)
      requires Forked(e, c, b, j, xs)
      modifies this`code, this`jpc, this`jl, this`lasttarget, e
      ensures r.Pass? ==> Tested(e, c, b) && Moved(c, old(code), old(pend), old(k), old(nactvar))
      ensures r.Pass? ==> e.k == old(e.k) && ToSet(jl) == ToSet(old(jl)) + ToSet(if b then old(e.fl) else old(e.tl))
      ensures r.Pass? ==>
                if b then ToSet(e.tl) == ToSet(old(e.tl)) + ToSet(xs) else ToSet(e.fl) == ToSet(old(e.fl)) + ToSet(xs)
      ensures r.Fail? ==> Exhausted(r.error)
      ensures |code| <= |old(code)|
    {
      hide Tests, Safe, IsList, Keeps, Placed, Relinked;
      ForkPlaced(e, c, b, j, xs);
      ghost var sn := ForkSn(e, b, xs);
      ghost var changed := ToSet(e.tl) + ToSet(e.fl) + ToSet(jl);
      :- ThreadExits(e, b, j, xs);
      JoinedTests(e, c, b, sn, changed);
      return Pass;
    }

    // The jumps of xs join the exits of truth b; the others are aimed here.
    method ThreadExits(e: ExpDesc, b: bool, j: int, ghost xs: seq<nat>) returns (r: Outcome)
      requires Linked(e) && IsList(code, j, xs)
      requires ToSet(xs) !! (ToSet(e.tl) + ToSet(e.fl) + ToSet(jl))
      requires ToSet(e.tl) !! ToSet(e.fl) && ToSet(e.tl) !! ToSet(jl) && ToSet(e.fl) !! ToSet(jl)
      modifies this`code, this`jpc, this`jl, this`lasttarget, e`t, e`f, e`tl, e`fl
      ensures r.Pass? ==> Linked(e) && ToSet(jl) == ToSet(old(jl)) + ToSet(if b then old(e.fl) else old(e.tl))
      ensures r.Pass? ==> if b then ToSet(e.tl) == ToSet(old(e.tl)) + ToSet(xs) && e.fl == []
                          else ToSet(e.fl) == ToSet(old(e.fl)) + ToSet(xs) && e.tl == []
      ensures r.Pass? ==> Relinked(old(code), code, ToSet(old(e.tl)) + ToSet(old(e.fl)) + ToSet(old(jl)))
      ensures r.Fail? ==> Exhausted(r.error)
      ensures |code| <= |old(code)|
    {
      hide IsList;
      ToSetAppend(if b then e.tl else e.fl, xs);
      ToSetAppend(jl, if b then e.fl else e.tl);
      if b {
        e.t :- Thread(e.t, j, e.f, e.tl, xs, e.fl);
        e.f, e.tl, e.fl := NO_JUMP, e.tl + xs, [];
      } else {
        e.f :- Thread(e.f, j, e.t, e.fl, xs, e.tl);
        e.t, e.fl, e.tl := NO_JUMP, e.fl + xs, [];
      }
      EmptyList(code);
      return Pass;
    }

    lemma ForkPlaced(e: ExpDesc, c: Claim, b: bool, j: int, xs: seq<nat>)
      requires Forked(e, c, b, j, xs)
      ensures Placed(c, ForkSn(e, b, xs)) && (c.start >= 1 ==> c.start <= |code| && !IsTest(code[c.start - 1]))
    {
    }

    lemma JoinedTests(e: ExpDesc, c: Claim, b: bool, sn: Snap, changed: set<nat>)
      requires Linked(e) && Relinked(sn.code, code, changed) && changed <= sn.tl + sn.fl + sn.jl && freereg == c.keep
               && c.start <= |sn.code|
      requires sn == Sn(e).(code := sn.code)
      requires Safe(sn.code, sn.pend) && sn.tl <= sn.pend && sn.fl <= sn.pend && sn.jl <= sn.pend
      requires Tests(rel, sn, c, b) && Limits(c) && Placed(c, sn)
      ensures Within(e, c) && Safe(code, pend) && Tests(rel, Sn(e), c, b)
      ensures Keeps(sn.code, sn.pend, c.entry, c.start, code, pend)
    {
      RelinkedTests(rel, sn, c, b, code);
    }

    // A constant operand of `and`, `or` or `not` is a number or a string.
    ghost predicate TruthyConstant(e: ExpDesc)
      reads this, e
    {
      e.k.VK? && e.k.i < |k| ==> !IsFalse(k[e.k.i])
    }

    // No jump aimed at the next instruction carries a value.
    ghost predicate NoValuesPending()
      reads this`code, this`jl
    {
      Plain(code, ToSet(jl))
    }

    // A constant whose truth is not b: no test is needed.
    lemma SkipForks(e: ExpDesc, c: Claim, b: bool)
      requires Ready(e, c) && freereg == c.keep && TruthyConstant(e) && c.mode.Fresh? && Fitted(e, c)
      requires if b then e.k.VFalse? else e.k.VK? || e.k.VKNum? || e.k.VTrue?
      ensures Forked(e, c, b, NO_JUMP, []) && Moved(c, code, pend, k, nactvar)
    {
      KeepsSelf(code, pend, c.entry, c.start, code, pend);
      SkipTests(rel, Sn(e), nactvar, c, b, ForkSn(e, b, []));
    }

    // A literal whose truth is b: the test is an unconditional jump.
    method LiteralJump(e: ExpDesc, b: bool, ghost c: Claim) returns (r: Outcome, j: int, ghost xs: seq<nat>)
      requires Ready(e, c) && freereg == c.keep && e.k == (if b then VTrue else VFalse) && c.mode.Fresh? && Fitted(e, c)
      modifies this`code, this`jpc, this`jl, this`pend
      ensures r.Pass? ==> Forked(e, c, b, j, xs) && Moved(c, old(code), old(pend), old(k), old(nactvar))
      ensures r.Pass? ==> jl == []
      ensures r.Fail? ==> Exhausted(r.error)
      ensures |code| <= |old(code)| + 1
    {
      hide Means, Forked, Keeps;
      ghost var sn := Sn(e);
      j, xs :- Jump();
      pend := pend + {|sn.code|};
      ListMembers(sn.code, e.t, e.tl); ListMembers(sn.code, e.f, e.fl);
      ListFrame(sn.code, code, e.t, e.tl);
      ListFrame(sn.code, code, e.f, e.fl);
      LiteralForks(e, c, b, sn, j, xs);
      return Pass, j, xs;
    }

    lemma LiteralForks(e: ExpDesc, c: Claim, b: bool, sn: Snap, j: int, xs: seq<nat>)
      requires Linked(e) && IsList(code, j, xs) && freereg == c.keep && jl == [] && Limits(c) && Placed(c, sn)
      requires sn == Sn(e).(code := sn.code, pend := sn.pend, jl := sn.jl) && sn.kind == (if b then VTrue else VFalse)
      requires |code| == |sn.code| + 1 && code[..|sn.code|] == sn.code && code[|sn.code|].Jmp?
      requires pend == sn.pend + {|sn.code|} && ToSet(xs) == {|sn.code|} + sn.jl
      requires SnapOk(sn, nactvar) && Means(rel, sn, c) && c.mode.Fresh? && KindFits(Lit(Source(c.x)), sn.kind)
      ensures Forked(e, c, b, j, xs) && Keeps(sn.code, sn.pend, c.entry, c.start, code, pend)
    {
      hide Means, Tests, Step;
      KeepsSelf(sn.code, sn.pend, c.entry, c.start, code, pend);
      assert code == sn.code + [code[|sn.code|]];
      LiteralTests(rel, sn, nactvar, c, b, code[|sn.code|], ForkSn(e, b, xs));
    }

    // The jump of a comparison, taken when its truth is b, becomes the new jump.
    method ComparisonJump(e: ExpDesc, b: bool, ghost c: Claim) returns (j: nat)
      requires Ready(e, c) && freereg == c.keep && e.k.VJmp? && !c.mode.Done? && Fitted(e, c)
      modifies this`code, this`pend
      ensures jl == []
      ensures Forked(e, c, b, j, [j]) && Moved(c, old(code), old(pend), old(k), old(nactvar))
      ensures |code| <= |old(code)|
    {
      hide Forked, Means;
      ghost var sn := Sn(e);
      ghost var body := Body(code, e.k);
      if !b {
        InvertJump(e);
      }
      j := e.k.pc;
      pend := pend + {j};
      LandedNothing(body);
      ghost var test := code[|body|];
      assert code == body + [test, Jmp(NO_JUMP)];
      ToSetHead(jl);
      ComparisonTest(rel, sn, nactvar, b);
      BodyList(sn, jpc, jl, code);
      BodyList(sn, e.t, e.tl, code);
      BodyList(sn, e.f, e.fl, code);
      TestForks(e, c, b, test, sn, j);
    }

    lemma ReadyLinked(e: ExpDesc, c: Claim)
      requires Ready(e, c)
      ensures Linked(e)
    {
    }

    // A test that jumps away when e is false.
    method TrueFork(e: ExpDesc, ghost c: Claim) returns (r: Outcome, j: int, ghost xs: seq<nat>)
      requires Ready(e, c) && Home(e, c) && TruthyConstant(e) && c.mode.Fresh? && Fitted(e, c)
      modifies this, e
      ensures r.Pass? ==> Forked(e, c, false, j, xs) && Moved(c, old(code), old(pend), old(k), old(nactvar))
      ensures r.Fail? ==> Exhausted(r.error)
      ensures |code| <= |old(code)| + 3 && |k| <= |old(k)| + 1 && freereg <= old(freereg) + 1
    {
      hide Ready, Forked, Keeps, IsList;
      DischargeVars(e, c);
      r, j, xs := Pass, NO_JUMP, [];
      if e.k.VK? || e.k.VKNum? || e.k.VTrue? {
        SkipForks(e, c, false);
      } else if e.k.VFalse? {
        j, xs :- LiteralJump(e, false, c);
      } else if e.k.VJmp? {
        j := ComparisonJump(e, false, c);
        xs := [j];
      } else {
        j :- JumpOnCond(e, false, c);
        xs := [j];
      }
    }

    method GoIfTrue(e: ExpDesc, ghost c: Claim) returns (r: Outcome)
      requires Ready(e, c) && Home(e, c) && TruthyConstant(e) && c.mode.Fresh? && Fitted(e, c)
      modifies this, e
      ensures r.Pass? ==> Tested(e, c, false) && Moved(c, old(code), old(pend), old(k), old(nactvar))
      ensures r.Fail? ==> Exhausted(r.error)
      ensures |code| <= |old(code)| + 3 && |k| <= |old(k)| + 1 && freereg <= old(freereg) + 1
    {
      hide Ready, Forked, Tested, Keeps, IsList;
      ReadyLinked(e, c);
      var j;
      ghost var xs;
      j, xs :- TrueFork(e, c);
      ghost var code1, pend1, k1 := code, pend, k;
      :- JoinFork(e, false, j, xs, c);
      MovedTwice(c, old(code), old(pend), old(k), code1, pend1, k1, nactvar);
      return Pass;
    }

    // A test that jumps away when e is true.
    method FalseFork(e: ExpDesc, ghost c: Claim) returns (r: Outcome, j: int, ghost xs: seq<nat>)
      requires Ready(e, c) && Home(e, c) && c.mode.Fresh? && Fitted(e, c)
      modifies this, e
      ensures r.Pass? ==> Forked(e, c, true, j, xs) && Moved(c, old(code), old(pend), old(k), old(nactvar))
      ensures r.Fail? ==> Exhausted(r.error)
      ensures |code| <= |old(code)| + 3 && |k| <= |old(k)| + 1 && freereg <= old(freereg) + 1
    {
      hide Ready, Forked, Keeps, IsList;
      DischargeVars(e, c);
      r, j, xs := Pass, NO_JUMP, [];
      if e.k.VFalse? {
        SkipForks(e, c, true);
      } else if e.k.VTrue? {
        j, xs :- LiteralJump(e, true, c);
      } else if e.k.VJmp? {
        j := ComparisonJump(e, true, c);
        xs := [j];
      } else {
        j :- JumpOnCond(e, true, c);
        xs := [j];
      }
    }

    method GoIfFalse(e: ExpDesc, ghost c: Claim) returns (r: Outcome)
      requires Ready(e, c) && Home(e, c) && c.mode.Fresh? && Fitted(e, c)
      modifies this, e
      ensures r.Pass? ==> Tested(e, c, true) && Moved(c, old(code), old(pend), old(k), old(nactvar))
      ensures r.Fail? ==> Exhausted(r.error)
      ensures |code| <= |old(code)| + 3 && |k| <= |old(k)| + 1 && freereg <= old(freereg) + 1
    {
      hide Ready, Forked, Tested, Keeps, IsList;
      ReadyLinked(e, c);
      var j;
      ghost var xs;
      j, xs :- FalseFork(e, c);
      ghost var code1, pend1, k1 := code, pend, k;
      :- JoinFork(e, true, j, xs, c);
      MovedTwice(c, old(code), old(pend), old(k), code1, pend1, k1, nactvar);
      return Pass;
    }

    // ---------- not ----------

    // The tail of e has been negated but its exits have not been exchanged yet; sn is e before.
    ghost predicate Negated(e: ExpDesc, c: Claim, sn: Snap)
      reads this, e
    {
      && Linked(e) && Within(e, c) && freereg == c.keep && c.start <= |Body(code, e.k)|
      && SnapOk(sn, nactvar) && Means(rel, sn, c) && Negatable(c, sn.jl)
      && sn == Sn(e).(code := sn.code, kind := sn.kind) && Body(code, e.k) == Body(sn.code, sn.kind)
      && KindOk(Sn(e), nactvar) && Negates(rel, k, code, e.k, sn)
    }

    // Exchanges the exits of e and removes their values.
    method SwapExits(e: ExpDesc, ghost c: Claim, ghost sn: Snap)
      requires Negated(e, c, sn) && !e.k.VNonReloc?
      modifies this`code, e`t, e`f, e`tl, e`fl
      ensures Ready(e, c.(x := NotOf(c.x), mode := Fresh)) && Moved(c, old(code), old(pend), old(k), old(nactvar))
      ensures |code| <= |old(code)|
    {
      hide Means, SnapOk, Negates, Negatable, IsList, Keeps, Placed, Stripped;
      ghost var sn0 := Sn(e);
      StripExits(e);
      SwappedMeans(e, c, sn, sn0);
      KeptPlaced(c, sn0, Sn(e), c.(x := NotOf(c.x), mode := Fresh));
    }

    method StripExits(e: ExpDesc)
      requires Linked(e)
      modifies this`code, e`t, e`f, e`tl, e`fl
      ensures Linked(e) && e.tl == old(e.fl) && e.fl == old(e.tl)
      ensures code == Stripped(old(code), ToSet(e.tl) + ToSet(e.fl))
      ensures |code| <= |old(code)|
    {
      e.t, e.f, e.tl, e.fl := e.f, e.t, e.fl, e.tl;
      RemoveValues(e.f, e.fl);
      StrippedList(old(code), ToSet(e.fl), e.t, e.tl);
      StrippedList(old(code), ToSet(e.fl), jpc, jl);
      ghost var code1 := code;
      RemoveValues(e.t, e.tl);
      StrippedList(code1, ToSet(e.tl), e.f, e.fl);
      StrippedList(code1, ToSet(e.tl), jpc, jl);
    }

    lemma SwappedMeans(e: ExpDesc, c: Claim, sn: Snap, sn0: Snap)
      requires SnapOk(sn, nactvar) && Means(rel, sn, c) && Negatable(c, sn.jl) && c.start <= |Body(sn0.code, e.k)|
      requires Body(sn0.code, e.k) == Body(sn.code, sn.kind) && code == Stripped(sn0.code, sn.tl + sn.fl)
      requires sn == Snap(sn.code, k, pend, sn.kind, ToSet(e.fl), ToSet(e.tl), ToSet(jl))
      requires KindOk(Sn(e).(code := sn0.code), nactvar) && Negates(rel, k, sn0.code, e.k, sn)
      requires Placed(c, sn0) && sn0 == sn.(code := sn0.code, kind := e.k)
      ensures SnapOk(Sn(e), nactvar) && Means(rel, Sn(e), c.(x := NotOf(c.x), mode := Fresh))
      ensures c.start <= |Body(code, e.k)| && Keeps(sn0.code, sn.pend, c.entry, c.start, code, pend)
    {
      assert Fits(c, |Body(sn.code, sn.kind)|);
      hide Means, Keeps, Negatable, Negates, Placed, Safe;
      SwappedTail(e, sn, sn0);
      NotMeans(rel, sn, nactvar, c, Sn(e));
      SwappedKeeps(c, sn, sn0);
    }

    // The tail still is the negation.
    lemma SwappedTail(e: ExpDesc, sn: Snap, sn0: Snap)
      requires SnapOk(sn, nactvar) && code == Stripped(sn0.code, sn.tl + sn.fl)
      requires sn == Snap(sn.code, k, pend, sn.kind, ToSet(e.fl), ToSet(e.tl), ToSet(jl))
      requires Body(sn0.code, e.k) == Body(sn.code, sn.kind)
      requires KindOk(Sn(e).(code := sn0.code), nactvar) && Negates(rel, k, sn0.code, e.k, sn)
      ensures KindOk(Sn(e), nactvar) && Negates(rel, k, code, e.k, sn)
      ensures Body(code, e.k) == Stripped(Body(sn0.code, e.k), sn.tl + sn.fl)
    {
      StrippedTail(sn0.code, e.k, sn.tl + sn.fl, sn.pend, nactvar, Sn(e).(code := sn0.code));
      forall kf, q: Regs | k <= kf
        ensures TailValue(rel, kf, code, e.k, q) == Bool(IsFalse(TailValue(rel, kf, sn.code, sn.kind, q)))
      {
        assert TailValue(rel, kf, code, e.k, q) == TailValue(rel, kf, sn0.code, e.k, q);
      }
    }

    lemma SwappedKeeps(c: Claim, sn: Snap, sn0: Snap)
      requires SnapOk(sn, nactvar) && Placed(c, sn0) && sn0 == sn.(code := sn0.code, kind := sn0.kind)
      requires Body(sn0.code, sn0.kind) == Body(sn.code, sn.kind) && c.start <= |Body(sn0.code, sn0.kind)|
      ensures Keeps(sn0.code, sn.pend, c.entry, c.start, Stripped(sn0.code, sn.tl + sn.fl), sn.pend)
    {
      StrippedKeeps(sn, c, sn0.code, sn.tl + sn.fl);
    }

    lemma StrippedList(code0: seq<Instr>, xs: set<nat>, l: int, ys: seq<nat>)
      requires IsList(code0, l, ys)
      ensures IsList(Stripped(code0, xs), l, ys)
    {
      ListMembers(code0, l, ys);
      ListFrame(code0, Stripped(code0, xs), l, ys);
    }

    lemma StrippedTail(code0: seq<Instr>, kind: Kind, xs: set<nat>, p: set<nat>, nact: nat, sn: Snap)
      requires sn.code == code0 && sn.kind == kind && KindOk(sn, nact)
      requires Safe(Body(code0, kind), p) && xs <= p
      ensures var code1 := Stripped(code0, xs);
              && Body(code1, kind) == Stripped(Body(code0, kind), xs)
              && (forall i | |Body(code0, kind)| <= i < |code0| :: code1[i] == code0[i])
    {
    }

    lemma StrippedKeeps(sn: Snap, c: Claim, code0: seq<Instr>, xs: set<nat>)
      requires Safe(Body(sn.code, sn.kind), sn.pend) && xs <= sn.pend && c.start <= |Body(sn.code, sn.kind)|
      requires |Body(sn.code, sn.kind)| <= |code0| && code0[..|Body(sn.code, sn.kind)|] == Body(sn.code, sn.kind)
      requires forall j | j in xs :: j >= c.start || j in c.entry
      requires c.start >= 1 ==> !IsTest(code0[c.start - 1])
      requires forall j | j in c.entry :: j < c.start && code0[j].Jmp?
      ensures Keeps(code0, sn.pend, c.entry, c.start, Stripped(code0, xs), sn.pend)
    {
      var body := Body(sn.code, sn.kind);
      forall i | 0 <= i < c.start ensures KeepsAt(code0, sn.pend, c.entry, c.start, Stripped(code0, xs), sn.pend, i) {
        assert SafeAt(body, sn.pend, i) && body[i] == code0[..|body|][i];
      }
    }

    // The value negated where it is: in the descriptor, in the comparison, or by a NOT.
    method Negate(e: ExpDesc, ghost c: Claim) returns (r: Outcome, ghost sn: Snap, ghost m: Mode)
      requires Ready(e, c) && Home(e, c) && TruthyConstant(e) && c.mode.Fresh? && Fitted(e, c)
      modifies this, e
      ensures r.Pass? ==> Negated(e, c.(mode := m), sn) && Moved(c, old(code), old(pend), old(k), old(nactvar))
      ensures r.Pass? ==> freereg == c.keep && !e.k.VNonReloc? && TruthyConstant(e) && Fitted(e, c.(x := NotOf(c.x)))
      ensures r.Fail? ==> Exhausted(r.error)
      ensures |code| <= |old(code)| + 2 && |k| <= |old(k)| + 1 && freereg <= old(freereg) + 1
    {
      hide Ready, Negated, Keeps;
      DischargeVars(e, c);
      r, sn, m := Pass, Sn(e), c.mode;
      if e.k.VFalse? {
        sn := NegateConstant(e, VTrue, c);
      } else if e.k.VK? || e.k.VKNum? || e.k.VTrue? {
        sn := NegateConstant(e, VFalse, c);
      } else if e.k.VJmp? {
        sn := NegateComparison(e, c);
      } else {
        sn :- NegateRegister(e, c);
        m := Landing;
      }
    }

    method CodeNot(e: ExpDesc, ghost c: Claim) returns (r: Outcome)
      requires Ready(e, c) && Home(e, c) && TruthyConstant(e) && c.mode.Fresh? && Fitted(e, c)
      modifies this, e
      ensures r.Pass? ==> Ready(e, c.(x := NotOf(c.x))) && Moved(c, old(code), old(pend), old(k), old(nactvar))
      ensures r.Pass? ==> freereg == c.keep && Home(e, c) && TruthyConstant(e) && Fitted(e, c.(x := NotOf(c.x)))
      ensures r.Pass? ==> !e.k.VNonReloc?
      ensures r.Fail? ==> Exhausted(r.error)
      ensures |code| <= |old(code)| + 2 && |k| <= |old(k)| + 1 && freereg <= old(freereg) + 1
    {
      hide Ready, Negated, Keeps;
      ghost var sn, m;
      sn, m :- Negate(e, c);
      ghost var code1, pend1, k1 := code, pend, k;
      SwapExits(e, c.(mode := m), sn);
      MovedTwice(c, old(code), old(pend), old(k), code1, pend1, k1, nactvar);
      return Pass;
    }

    method NegateConstant(e: ExpDesc, kind: Kind, ghost c: Claim) returns (ghost sn: Snap)
      requires Ready(e, c) && TruthyConstant(e) && freereg == c.keep && c.mode.Fresh? && Fitted(e, c)
      requires if e.k.VFalse? then kind.VTrue? else kind.VFalse? && (e.k.VK? || e.k.VKNum? || e.k.VTrue?)
      modifies e`k
      ensures Negated(e, c, sn) && e.k == kind && freereg == c.keep && Moved(c, code, pend, k, nactvar)
    {
      sn := Sn(e);
      e.k := kind;
      KeepsSelf(code, pend, c.entry, c.start, code, pend);
    }

    method NegateComparison(e: ExpDesc, ghost c: Claim) returns (ghost sn: Snap)
      requires Ready(e, c) && e.k.VJmp? && freereg == c.keep && c.mode.Fresh? && Fitted(e, c)
      modifies this`code
      ensures Negated(e, c, sn) && e.k.VJmp? && jl == [] && freereg == c.keep
              && Moved(c, old(code), old(pend), old(k), old(nactvar))
      ensures |code| <= |old(code)|
    {
      sn := Sn(e);
      ToSetHead(jl);
      InvertJump(e);
      InvertedTail(e, c, sn);
    }

    // The lists and the tail after a comparison has been inverted.
    lemma InvertedTail(e: ExpDesc, c: Claim, sn: Snap)
      requires sn.kind.VJmp? && e.k == sn.kind && KindOk(sn, nactvar) && Safe(Body(sn.code, sn.kind), sn.pend)
      requires IsList(sn.code, jpc, jl) && IsList(sn.code, e.t, e.tl) && IsList(sn.code, e.f, e.fl)
      requires sn == Sn(e).(code := sn.code) && sn.tl <= pend && sn.fl <= pend && sn.jl <= pend
      requires var t := sn.code[e.k.pc - 1]; code == sn.code[e.k.pc - 1 := Cmp(t.op, !t.cond, t.rb, t.rc)]
      requires c.start <= |Body(sn.code, sn.kind)| && Placed(c, sn)
      ensures Linked(e) && KindOk(Sn(e), nactvar) && Negates(rel, k, code, e.k, sn)
      ensures Body(code, e.k) == Body(sn.code, sn.kind)
      ensures Keeps(sn.code, sn.pend, c.entry, c.start, code, pend)
    {
      assert Body(code, e.k) == Body(sn.code, sn.kind);
      KeepsSelf(sn.code, pend, c.entry, c.start, code, pend);
      BodyList(sn, jpc, jl, code);
      BodyList(sn, e.t, e.tl, code);
      BodyList(sn, e.f, e.fl, code);
      forall kf, q: Regs | k <= kf
        ensures TailValue(rel, kf, code, e.k, q) == Bool(IsFalse(TailValue(rel, kf, sn.code, sn.kind, q)))
      {
      }
    }

    // Emits a NOT of the register that holds the value.
    method NegateRegister(e: ExpDesc, ghost c: Claim) returns (r: Outcome, ghost sn: Snap)
      requires Ready(e, c) && Home(e, c) && (e.k.VRelocable? || e.k.VNonReloc?) && c.mode.Fresh? && Fitted(e, c)
      modifies this`code, this`jpc, this`jl, this`pend, this`k, this`freereg, this`maxstacksize, e`k
      ensures r.Pass? ==> Negated(e, c.(mode := Landing), sn) && e.k.VRelocable? && jl == [] && freereg == c.keep
                          && Moved(c, old(code), old(pend), old(k), old(nactvar))
      ensures r.Fail? ==> Exhausted(r.error)
      ensures |code| <= |old(code)| + 2 && |k| <= |old(k)| + 1 && freereg <= old(freereg) + 1
    {
      hide Ready, Keeps, Negated;
      sn := Sn(e);
      :- Discharge2AnyReg(e, c);
      FreeExp(e);
      ghost var code1, pend1, k1 := code, pend, k;
      sn :- EmitNot(e, c.(mode := Landing));
      MovedTwice(c, old(code), old(pend), old(k), code1, pend1, k1, nactvar);
      return Pass, sn;
    }

    method EmitNot(e: ExpDesc, ghost c: Claim) returns (r: Outcome, ghost sn: Snap)
      requires Ready(e, c) && e.k.VNonReloc? && freereg == c.keep && c.mode.Landing?
      requires Lit(Source(c.x)).LLocal? || Lit(Source(c.x)).LTest?
      modifies this`code, this`jpc, this`jl, this`pend, e`k
      ensures r.Pass? ==> Negated(e, c, sn) && e.k.VRelocable? && jl == [] && freereg == c.keep
                          && Moved(c, old(code), old(pend), old(k), old(nactvar))
      ensures r.Fail? ==> Exhausted(r.error)
      ensures |code| <= |old(code)| + 1
    {
      sn := Sn(e);
      ghost var sn1 := sn;
      var ins := Instr.Not(0, e.k.r);
      var pc :- Code(ins);
      pend := pend - sn1.jl;
      e.k := VRelocable(pc);
      sn := sn1.(code := Landed(sn1.code, sn1.jl), pend := pend, jl := {});
      NotEmitted(e, c, sn1, sn, ins);
      return Pass, sn;
    }

    lemma NotEmitted(e: ExpDesc, c: Claim, sn1: Snap, sn: Snap, ins: Instr)
      requires SnapOk(sn1, nactvar) && Means(rel, sn1, c) && sn1.kind.VNonReloc? && c.start <= |sn1.code|
               && c.mode.Landing?
      requires Lit(Source(c.x)).LLocal? || Lit(Source(c.x)).LTest?
      requires IsList(sn1.code, e.t, e.tl) && IsList(sn1.code, e.f, e.fl) && IsList(code, jpc, jl) && jl == []
      requires ins == Instr.Not(0, sn1.kind.r) && code == Landed(sn1.code, sn1.jl) + [ins]
      requires sn == sn1.(code := Landed(sn1.code, sn1.jl), pend := sn1.pend - sn1.jl, jl := {})
      requires e.k == VRelocable(|sn1.code|) && sn == Sn(e).(code := sn.code, kind := sn.kind)
      requires Limits(c) && Placed(c, sn1) && freereg == c.keep
      ensures Negated(e, c, sn) && Moved(c, sn1.code, sn1.pend, sn1.k, nactvar)
    {
      LandedKeeps(sn1, c, [ins], pend);
      LandedList(sn1.code, sn1.jl, [ins], e.t, e.tl);
      LandedList(sn1.code, sn1.jl, [ins], e.f, e.fl);
      LandMeans(rel, sn1, nactvar, c, sn);
      assert Landed(sn1.code, sn1.jl) + [] == sn.code;
    }

    // ---------- values into registers ----------

    // e is discharged: its value is in reg, or falling through a comparison means false.
    ghost predicate Settled(e: ExpDesc, c: Claim, kind: Kind)
      reads this`code, this`k, this`jpc, this`jl, this`pend, this`nactvar, this`maxstacksize, e
    {
      && Linked(e) && Within(e, c) && c.start <= |code| && (kind.VNonReloc? || (kind.VFalse? && jl == []))
      && SnapOk(Sn(e).(kind := kind), nactvar) && Means(rel, Sn(e).(kind := kind), c)
    }

    // The jump of a comparison joins the exits when true.
    method JoinComparison(e: ExpDesc, ghost c: Claim) returns (r: Outcome)
      requires Ready(e, c) && e.k.VJmp?
      modifies this`code, this`pend, e`t, e`tl
      ensures r.Pass? ==> Settled(e, c.(mode := Done), VFalse) && Moved(c, old(code), old(pend), old(k), old(nactvar))
      ensures r.Pass? ==> jl == [] && e.k == old(e.k) && exists j :: j in ToSet(e.tl) && !SetsValue(code, j)
      ensures r.Fail? ==> Exhausted(r.error)
      ensures |code| <= |old(code)|
    {
      hide Means, SnapOk, Placed, Settled, Moved, IsList, ToSet;
      ghost var sn := Sn(e);
      var j := e.k.pc;
      LoneJump(e, c);
      e.t :- Concat(e.t, j, e.tl, [j]);
      pend := pend + {j};
      e.tl := e.tl + [j];
      ComparisonJoined(e, c, sn, old(e.tl));
      assert j as nat in ToSet(e.tl) && !SetsValue(code, j);
      return Pass;
    }

    // The jump of a comparison is a list by itself.
    lemma LoneJump(e: ExpDesc, c: Claim)
      requires Ready(e, c) && e.k.VJmp?
      ensures jl == [] && jpc == NO_JUMP && ToSet(jl) == {}
      ensures IsList(code, e.k.pc, [e.k.pc]) && ToSet(e.tl) !! ToSet([e.k.pc])
    {
      hide Means;
      ToSetHead(jl);
      assert IsList(code, e.k.pc, [e.k.pc]) by { assert LinkAt(code, [e.k.pc], 0); }
      assert e.k.pc !in ToSet(e.tl);
    }

    lemma ComparisonJoined(e: ExpDesc, c: Claim, sn: Snap, tl: seq<nat>)
      requires sn.kind.VJmp? && SnapOk(sn, nactvar) && Means(rel, sn, c) && Placed(c, sn) && Limits(c)
      requires c.start <= |Body(sn.code, sn.kind)| && Relinked(sn.code, code, sn.tl) && sn.tl == ToSet(tl)
      requires IsList(sn.code, e.f, e.fl) && IsList(code, e.t, e.tl) && jpc == NO_JUMP && jl == []
      requires e.k == sn.kind && e.tl == tl + [sn.kind.pc] && pend == sn.pend + {sn.kind.pc}
      requires k == sn.k && ToSet(e.fl) == sn.fl && sn.jl == {}
      ensures Settled(e, c.(mode := Done), VFalse) && Moved(c, sn.code, sn.pend, sn.k, nactvar)
      ensures sn.kind.pc in ToSet(e.tl) && !SetsValue(code, sn.kind.pc)
    {
      hide Means, Keeps;
      var j := sn.kind.pc;
      ToSetAppend(tl, [j]);
      assert ToSet([j]) == {j} && ToSet(jl) == {};
      RelinkedList(sn.code, code, sn.tl, e.f, e.fl);
      assert IsList(code, jpc, jl);
      ComparisonTaken(e, c, sn);
    }

    lemma ComparisonTaken(e: ExpDesc, c: Claim, sn: Snap)
      requires sn.kind.VJmp? && SnapOk(sn, nactvar) && Means(rel, sn, c)
      requires c.start <= |Body(sn.code, sn.kind)| && Relinked(sn.code, code, sn.tl) && Placed(c, sn)
      requires Sn(e) == sn.(code := code, pend := sn.pend + {sn.kind.pc}, tl := sn.tl + {sn.kind.pc})
      ensures SnapOk(Sn(e).(kind := VFalse), nactvar) && Means(rel, Sn(e).(kind := VFalse), c.(mode := Done))
      ensures Keeps(sn.code, sn.pend, c.entry, c.start, code, pend)
    {
      hide Means;
      var j := sn.kind.pc;
      RelinkedMeans(rel, sn, nactvar, c, code);
      var sn1 := sn.(code := code);
      assert code[j] == sn.code[j] && code == code[|code| - 1 := code[j]];
      JoinMeans(rel, sn1, nactvar, c, code[j], Sn(e).(kind := VFalse));
      assert code[c.start..] == code[c.start..];
      forall i | 0 <= i < c.start ensures KeepsAt(sn.code, sn.pend, c.entry, c.start, code, pend, i) {
        assert code[i] == code[i];
      }
    }

    lemma ListExtends(code0: seq<Instr>, tail: seq<Instr>, l: int, xs: seq<nat>)
      requires IsList(code0, l, xs)
      ensures IsList(code0 + tail, l, xs)
    {
      ListMembers(code0, l, xs);
      ListFrame(code0, code0 + tail, l, xs);
    }

    method CodeLabel(a: Reg, b: bool, jump: bool) returns (r: Outcome, pc: nat)
      requires IsList(code, jpc, jl)
      modifies this`code, this`jpc, this`jl, this`lasttarget
      ensures r.Pass? ==> code == Landed(old(code), ToSet(old(jl))) + [LoadBool(a, b, jump)] && pc == |old(code)|
                          && jpc == NO_JUMP && jl == []
      ensures r.Pass? && old(jl) == [] ==> code == old(code) + [LoadBool(a, b, jump)]
      ensures r.Fail? ==> Exhausted(r.error)
      ensures |code| <= |old(code)| + 1
    {
      var _ := GetLabel();
      LandedNothing(code);
      assert ToSet([]) == {};
      r, pc := Code(LoadBool(a, b, jump));
    }

    // The loads of false and true, for exits that carry no value; a value that is
    // already in its register jumps over them.
    method AddLoads(reg: Reg, over: bool) returns (r: Outcome, pf: int, pt: int, ghost extra: seq<Instr>)
      requires IsList(code, jpc, jl) && (!over ==> jl == [])
      modifies this`code, this`jpc, this`jl, this`lasttarget
      ensures r.Pass? ==> code == old(code) + extra && IsList(code, jpc, jl)
      ensures r.Pass? ==> pt == pf + 1 && pt + 1 == |code|
      ensures r.Pass? ==>
                |extra| >= 2 && extra[|extra| - 2..] == [LoadBool(reg, false, true), LoadBool(reg, true, false)]
      ensures r.Pass? ==> if over then |extra| == 3 && extra[0].Jmp? && ToSet(jl) == {|old(code)|} + ToSet(old(jl))
                          else |extra| == 2 && jl == []
      ensures r.Fail? ==> Exhausted(r.error)
      ensures |code| <= |old(code)| + 3
    {
      hide IsList, Relinked, Exhausted;
      EmptyList(code);
      pf, pt, extra := NO_JUMP, NO_JUMP, [];
      var fj := NO_JUMP;
      ghost var xs: seq<nat> := [];
      if over {
        fj, xs :- Jump();
        extra := code[|old(code)|..];
      }
      ghost var code1 := code;
      pf :- CodeLabel(reg, false, true);
      pt :- CodeLabel(reg, true, false);
      ghost var loads := [LoadBool(reg, false, true), LoadBool(reg, true, false)];
      assert code == code1 + loads;
      ListExtends(code1, loads, fj, xs);
      :- PatchToHere(fj, xs);
      extra := extra + loads;
      return Pass, pf, pt, extra;
    }

    // Aims every exit at the end of the code or at the load of its truth value.
    method PatchExits(e: ExpDesc, reg: Reg, pf: int, pt: int) returns (r: Outcome)
      requires Linked(e) && reg != NO_REG && ToSet(e.tl) !! ToSet(e.fl)
      requires ToSet(jl) !! ToSet(e.fl) && ToSet(jl) !! ToSet(e.tl) && pf <= |code| && pt <= |code|
      requires (pf >= 0 && pt >= 0) || forall j | j in ToSet(e.tl) + ToSet(e.fl) :: SetsValue(code, j)
      modifies this`code, this`lasttarget
      ensures r.Pass? ==> code == Finished(old(code), ToSet(e.tl), ToSet(e.fl), reg, pf, pt) && IsList(code, jpc, jl)
      ensures r.Fail? ==> Exhausted(r.error)
      ensures |code| <= |old(code)|
    {
      var final := GetLabel();
      ghost var code0 := code;
      ListMembers(code0, e.t, e.tl); ListMembers(code0, e.f, e.fl);
      forall j | j in e.fl ensures j in ToSet(e.tl) + ToSet(e.fl) {}
      :- PatchListAux(e.f, final, reg, pf, e.fl);
      ghost var code1 := code;
      PatchedList(code0, e.fl, final, reg, pf, e.t, e.tl);
      PatchedList(code0, e.fl, final, reg, pf, jpc, jl);
      forall j | j in e.tl ensures j in ToSet(e.tl) + ToSet(e.fl) {}
      :- PatchListAux(e.t, final, reg, pt, e.tl);
      ListMembers(code1, e.t, e.tl);
      PatchedList(code1, e.tl, final, reg, pt, jpc, jl);
      return Pass;
    }

    // Patching one list leaves a disjoint one, and its controls, alone.
    lemma PatchedList(code0: seq<Instr>, xs: seq<nat>, vtarget: int, reg: Reg, dtarget: int, l: int, ys: seq<nat>)
      requires IsList(code0, l, ys) && ToSet(xs) !! ToSet(ys)
      requires forall j | j in xs :: j < |code0| && code0[j].Jmp?
      ensures var code1 := Patched(code0, ToSet(xs), vtarget, reg, dtarget);
              IsList(code1, l, ys) && forall j | j in ys :: SetsValue(code1, j) == SetsValue(code0, j)
    {
      var code1 := Patched(code0, ToSet(xs), vtarget, reg, dtarget);
      ListMembers(code0, l, ys);
      forall j | j in ys
        ensures j < |code1| && (j < |code0| ==> code1[j] == code0[j]) && SetsValue(code1, j) == SetsValue(code0, j)
      {
        assert j in ToSet(ys);
        assert code1[j] == PatchedAt(code0, ToSet(xs), vtarget, reg, dtarget, j);
        if j >= 1 { assert code1[j - 1] == PatchedAt(code0, ToSet(xs), vtarget, reg, dtarget, j - 1); }
      }
      ListFrame(code0, code1, l, ys);
    }

    method Exp2Reg(e: ExpDesc, reg: Reg, ghost c: Claim) returns (r: Outcome)
      requires Ready(e, c) && reg < MAXSTACK && (reg >= c.keep || reg == c.save)
      modifies this, e
      ensures r.Pass? ==> Ready(e, c.(mode := Done)) && Moved(c, old(code), old(pend), old(k), old(nactvar))
      ensures r.Pass? ==>
                e.k == VNonReloc(reg) && e.tl == e.fl == [] && e.t == e.f == NO_JUMP && freereg == old(freereg)
      ensures r.Pass? && Elsewhere(old(e.k), reg) ==> NoValuesPending()
      ensures r.Fail? ==> Exhausted(r.error)
      ensures |code| <= |old(code)| + 4 && |k| <= |old(k)| + 1 && freereg <= old(freereg)
    {
      hide Ready, Settled, Keeps;
      :- Discharge2Reg(e, reg, c);
      ghost var kind := VNonReloc(reg);
      ghost var c1 := c.(mode := Landed1(c.mode));
      ghost var code1, pend1, k1 := code, pend, k;
      if e.k.VJmp? {
        :- JoinComparison(e, c1);
        kind, c1 := VFalse, c.(mode := Done);
        MovedTwice(c, old(code), old(pend), old(k), code1, pend1, k1, nactvar);
        code1, pend1, k1 := code, pend, k;
      } else {
        ReadySettled(e, c1);
      }
      :- FinishExits(e, reg, c1, kind);
      MovedTwice(c, old(code), old(pend), old(k), code1, pend1, k1, nactvar);
      return Pass;
    }

    lemma ReadySettled(e: ExpDesc, c: Claim)
      requires Ready(e, c) && e.k.VNonReloc?
      ensures Settled(e, c, e.k)
    {
    }

    lemma NoLoads(sn: Snap, reg: Reg)
      requires sn.kind == VNonReloc(reg) && forall j | j in sn.tl + sn.fl :: SetsValue(sn.code, j)
      ensures LoadsAdded(sn, reg, [], NO_JUMP, NO_JUMP)
    {
    }

    lemma SomeLoads(sn: Snap, reg: Reg, extra: seq<Instr>, pf: int, pt: int)
      requires sn.kind == VNonReloc(reg) || (sn.kind == VFalse && sn.jl == {})
      requires |extra| >= 2 && extra[|extra| - 2..] == [LoadBool(reg, false, true), LoadBool(reg, true, false)]
      requires if sn.kind == VFalse then |extra| == 2 else |extra| == 3 && extra[0].Jmp?
      requires pt == pf + 1 && pt + 1 == |sn.code| + |extra|
      ensures LoadsAdded(sn, reg, extra, pf, pt)
    {
    }

    // Adds the loads when some exit carries no value, and patches all exits.
    method MergeExits(e: ExpDesc, reg: Reg, ghost sn: Snap)
      returns (r: Outcome, ghost extra: seq<Instr>, ghost pf: int, ghost pt: int)
      requires Linked(e) && reg != NO_REG && sn == Sn(e).(kind := if e.k.VJmp? then VFalse else VNonReloc(reg))
      requires sn.tl !! sn.fl && sn.jl !! sn.tl && sn.jl !! sn.fl
      requires e.k.VJmp? ==> sn.jl == {} && exists j :: j in sn.tl && !SetsValue(code, j)
      modifies this`code, this`jpc, this`jl, this`lasttarget
      ensures r.Pass? ==> LoadsAdded(sn, reg, extra, pf, pt) && IsList(code, jpc, jl)
      ensures r.Pass? ==> code == Finished(sn.code + extra, sn.tl, sn.fl, reg, pf, pt)
      ensures r.Pass? ==> ToSet(jl) == sn.jl + (if |extra| == 3 then {|sn.code|} else {})
      ensures r.Fail? ==> Exhausted(r.error)
      ensures |code| <= |old(code)| + 3
    {
      hide LoadsAdded, Finished, IsList;
      extra, pf, pt := [], NO_JUMP, NO_JUMP;
      ListMembers(code, e.t, e.tl); ListMembers(code, e.f, e.fl);
      ListHead(code, e.t, e.tl); ListHead(code, e.f, e.fl);
      var f, t := NO_JUMP, NO_JUMP;
      ToSetHead(e.tl); ToSetHead(e.fl);
      if e.t != e.f {
        extra, f, t :- LoadsFor(e, reg, sn);
        pf, pt := f, t;
        :- PatchExits(e, reg, f, t);
      } else {
        assert sn.tl == {} && sn.fl == {} && sn.code + extra == sn.code;
        NoLoads(sn, reg);
        FinishedNothing(sn.code, reg, pf, pt);
      }
      return Pass, extra, pf, pt;
    }

    // Whether some exit carries no value.
    method NeedLoads(e: ExpDesc) returns (need: bool)
      requires Linked(e)
      ensures need <==> exists j | j in ToSet(e.tl) + ToSet(e.fl) :: !SetsValue(code, j)
    {
      hide IsList, SetsValue;
      need := NeedValue(e.t, e.tl);
      if !need {
        need := NeedValue(e.f, e.fl);
        assert forall j :: j in ToSet(e.fl) <==> j in e.fl;
      }
      assert forall j :: j in ToSet(e.tl) <==> j in e.tl;
    }

    method LoadsFor(e: ExpDesc, reg: Reg, ghost sn: Snap)
      returns (r: Outcome, ghost extra: seq<Instr>, pf: int, pt: int)
      requires Linked(e) && reg != NO_REG && sn == Sn(e).(kind := if e.k.VJmp? then VFalse else VNonReloc(reg))
      requires e.k.VJmp? ==> sn.jl == {} && exists j :: j in sn.tl && !SetsValue(code, j)
      modifies this`code, this`jpc, this`jl, this`lasttarget
      ensures r.Pass? ==> LoadsAdded(sn, reg, extra, pf, pt) && Linked(e) && code == sn.code + extra
      ensures r.Pass? ==> ToSet(jl) == sn.jl + (if |extra| == 3 then {|sn.code|} else {})
      ensures r.Pass? ==> pf <= |code| && pt <= |code|
      ensures r.Pass? ==> (pf >= 0 && pt >= 0) || forall j | j in sn.tl + sn.fl :: SetsValue(code, j)
      ensures r.Fail? ==> Exhausted(r.error)
      ensures |code| <= |old(code)| + 3
    {
      hide LoadsAdded, IsList;
      ListMembers(code, e.t, e.tl); ListMembers(code, e.f, e.fl);
      ToSetHead(jl);
      var need := NeedLoads(e);
      hide SetsValue;
      if need {
        pf, pt, extra :- AddLoads(reg, !e.k.VJmp?);
        ListFrame(sn.code, code, e.t, e.tl);
        ListFrame(sn.code, code, e.f, e.fl);
        SomeLoads(sn, reg, extra, pf, pt);
      } else {
        extra, pf, pt := [], NO_JUMP, NO_JUMP;
        NoLoads(sn, reg);
      }
      return Pass, extra, pf, pt;
    }

    // The second half of Exp2Reg.
    method FinishExits(e: ExpDesc, reg: Reg, ghost c: Claim, ghost kind: Kind) returns (r: Outcome)
      requires Settled(e, c, kind) && kind == (if e.k.VJmp? then VFalse else VNonReloc(reg))
      requires e.k.VJmp? ==> exists j :: j in ToSet(e.tl) && !SetsValue(code, j)
      requires reg < MAXSTACK && (reg >= c.keep || reg == c.save)
      modifies this`code, this`jpc, this`jl, this`pend, this`lasttarget, e
      ensures r.Pass? ==> Ready(e, c.(mode := Done)) && Moved(c, old(code), old(pend), old(k), old(nactvar))
      ensures r.Pass? ==> e.k == VNonReloc(reg) && e.tl == e.fl == [] && e.t == e.f == NO_JUMP
      ensures r.Pass? && old(jl) == [] ==> NoValuesPending()
      ensures r.Fail? ==> Exhausted(r.error)
      ensures |code| <= |old(code)| + 3
    {
      hide Ready, Settled, Means, SnapOk, LoadsAdded, IsList, Finished, Placed;
      ghost var sn := Sn(e).(kind := kind);
      SettledFacts(e, c, kind);
      ghost var extra, pf, pt;
      extra, pf, pt :- MergeExits(e, reg, sn);
      pend := pend - sn.tl - sn.fl + (if |extra| == 3 then {|sn.code|} else {});
      e.f, e.t, e.fl, e.tl := NO_JUMP, NO_JUMP, [], [];
      e.k := VNonReloc(reg);
      EmptyList(code);
      ExitsFinished(e, c, sn, reg, extra, pf, pt);
      return Pass;
    }

    lemma SettledFacts(e: ExpDesc, c: Claim, kind: Kind)
      requires Settled(e, c, kind)
      ensures var sn := Sn(e).(kind := kind);
              && Linked(e) && Limits(c) && Placed(c, sn) && (kind.VFalse? ==> sn.jl == {})
              && SnapOk(sn, nactvar) && Means(rel, sn, c)
              && sn.tl !! sn.fl && sn.jl !! sn.tl && sn.jl !! sn.fl
    {
    }

    lemma FinishedNothing(code0: seq<Instr>, reg: Reg, pf: int, pt: int)
      ensures Finished(code0, {}, {}, reg, pf, pt) == code0
    {
    }

    lemma ExitsFinished(e: ExpDesc, c: Claim, sn: Snap, reg: Reg, extra: seq<Instr>, pf: int, pt: int)
      requires SnapOk(sn, nactvar) && Means(rel, sn, c) && Placed(c, sn)
      requires LoadsAdded(sn, reg, extra, pf, pt) && reg != NO_REG && (reg >= c.keep || reg == c.save)
      requires Sn(e) == Snap(Finished(sn.code + extra, sn.tl, sn.fl, reg, pf, pt), sn.k,
                             sn.pend - sn.tl - sn.fl + (if |extra| == 3 then {|sn.code|} else {}), VNonReloc(reg),
                             {}, {}, sn.jl + (if |extra| == 3 then {|sn.code|} else {}))
      requires Linked(e) && Limits(c)
      ensures Ready(e, c.(mode := Done)) && Moved(c, sn.code, sn.pend, sn.k, nactvar)
      ensures sn.jl == {} ==> NoValuesPending()
    {
      assert Fits(c, |sn.code|);
      hide Means, Keeps, Placed, Finished, Safe;
      FinishedMeans(rel, sn, nactvar, c, reg, extra, pf, pt, Sn(e));
      FinishedKeeps(c, sn, reg, extra, pf, pt);
      KeptPlaced(c, sn, Sn(e), c.(mode := Done));
    }

    lemma FinishedKeeps(c: Claim, sn: Snap, reg: Reg, extra: seq<Instr>, pf: int, pt: int)
      requires SnapOk(sn, nactvar) && Placed(c, sn)
      requires LoadsAdded(sn, reg, extra, pf, pt) && reg != NO_REG
      requires code == Finished(sn.code + extra, sn.tl, sn.fl, reg, pf, pt)
      requires pend == sn.pend - sn.tl - sn.fl + (if |extra| == 3 then {|sn.code|} else {})
      ensures Keeps(sn.code, sn.pend, c.entry, c.start, code, pend)
      ensures |sn.code| < |code| ==> !SetsValue(code, |sn.code|)
    {
      var code2 := sn.code + extra;
      if 1 <= |sn.code| < |code| {
        FinishedAt(code2, sn.tl, sn.fl, reg, pf, pt, |sn.code| - 1);
        SafeEnd(sn.code, sn.pend);
      }
      forall i | 0 <= i < c.start ensures KeepsAt(sn.code, sn.pend, c.entry, c.start, code, pend, i) {
        FinishedAt(code2, sn.tl, sn.fl, reg, pf, pt, i);
        assert SafeAt(sn.code, sn.pend, i);
      }
    }

    method Exp2NextReg(e: ExpDesc, ghost c: Claim) returns (r: Outcome)
      requires Ready(e, c) && Home(e, c)
      modifies this, e
      ensures r.Pass? ==> Ready(e, c.(mode := Done)) && Moved(c, old(code), old(pend), old(k), old(nactvar))
      ensures r.Pass? ==> e.k == VNonReloc(c.keep) && Operand(e) && freereg == c.keep + 1 < MAXSTACK
      ensures r.Pass? && old(Low(e)) ==> NoValuesPending()
      ensures r.Fail? ==> Exhausted(r.error)
      ensures |code| <= |old(code)| + 4 && |k| <= |old(k)| + 1 && freereg <= old(freereg) + 1
    {
      hide Means, SnapOk, IsList, Placed, Keeps, NoValuesPending;
      DischargeVars(e, c);
      FreeExp(e);
      :- ReserveRegs(1);
      :- Exp2Reg(e, freereg - 1, c);
      return Pass;
    }

    // Only a local is in a register already.
    ghost predicate Low(e: ExpDesc)
      reads this`nactvar, e
    {
      (e.k.VNonReloc? ==> e.k.r < nactvar) && (e.k.VLocal? ==> e.k.r < nactvar)
    }

    lemma NoExits(e: ExpDesc, c: Claim)
      requires (Ready(e, c) || Operand(e)) && e.t == e.f
      ensures e.t == NO_JUMP && e.tl == e.fl == []
    {
      ToSetHead(e.tl); ToSetHead(e.fl);
    }

    // What is known of an operand in place: its whole way, when nothing was emitted,
    // or its value, and then no jump brings anything.
    ghost predicate InPlace(e: ExpDesc, c: Claim, m: Mode, low: bool)
      reads this, e
    {
      && Ready(e, c.(mode := m)) && Home(e, c) && (m == c.mode || m.Done?)
      && (low && m != c.mode ==> NoValuesPending())
    }

    method Exp2AnyReg(e: ExpDesc, ghost c: Claim) returns (r: Outcome, reg: Reg, ghost m: Mode)
      requires (Ready(e, c) && Home(e, c)) || (Operand(e) && e.k.VNonReloc?)
      modifies this, e
      ensures r.Pass? ==> Operand(e) && e.k == VNonReloc(reg)
      ensures old(Operand(e) && e.k.VNonReloc?) ==> r.Pass? && unchanged(this, e) && m == c.mode
      ensures r.Pass? && old(Ready(e, c) && Home(e, c)) ==>
                InPlace(e, c, m, old(Low(e))) && Moved(c, old(code), old(pend), old(k), old(nactvar))
      ensures r.Fail? ==> Exhausted(r.error)
      ensures |code| <= |old(code)| + 4 && |k| <= |old(k)| + 1 && freereg <= old(freereg) + 1
    {
      reg, m := 0, c.mode;
      DischargeVars(e, c);
      if e.k.VNonReloc? {
        if e.t == e.f {
          NoExits(e, c);
          if old(Ready(e, c)) { KeepsSelf(code, pend, c.entry, c.start, code, pend); }
          return Pass, e.k.r, m;
        }
        if e.k.r >= nactvar {
          :- Exp2Reg(e, e.k.r, c);
          return Pass, e.k.r, Done;
        }
      }
      :- Exp2NextReg(e, c);
      return Pass, e.k.r, Done;
    }

    method Exp2Val(e: ExpDesc, ghost c: Claim) returns (r: Outcome, ghost m: Mode)
      requires (Ready(e, c) && Home(e, c)) || Operand(e)
      modifies this, e
      ensures r.Pass? ==> e.tl == e.fl == [] && e.t == e.f == NO_JUMP && !e.k.VLocal?
      ensures old(Operand(e)) ==> r.Pass? && unchanged(this, e) && m == c.mode
      ensures r.Pass? && old(Ready(e, c) && Home(e, c)) ==>
                InPlace(e, c, m, old(Low(e))) && Moved(c, old(code), old(pend), old(k), old(nactvar))
      ensures r.Pass? && (m != c.mode || old(Low(e))) ==> (m == c.mode && Low(e)) || (Operand(e) && e.k.VNonReloc?)
      ensures r.Fail? ==> Exhausted(r.error)
      ensures |code| <= |old(code)| + 4 && |k| <= |old(k)| + 1 && freereg <= old(freereg) + 1
    {
      m := c.mode;
      if e.t != e.f {
        var reg;
        r, reg, m := Exp2AnyReg(e, c);
      } else {
        NoExits(e, c);
        if old(Ready(e, c)) { KeepsSelf(code, pend, c.entry, c.start, code, pend); }
        DischargeVars(e, c);
        r := Pass;
      }
    }

    // The operand is in a register or among the first constants.
    ghost predicate Encodes(rk: RK, kind: Kind) {
      match kind
      case VNonReloc(q) => rk == q
      case VK(i) => i <= MAXINDEXRK && rk == i + BITRK
      case _ => false
    }

    method Exp2RK(e: ExpDesc, ghost c: Claim) returns (r: Outcome, rk: RK, ghost m: Mode)
      requires (Ready(e, c) && Home(e, c)) || Operand(e)
      modifies this, e
      ensures r.Pass? ==> Operand(e) && Encodes(rk, e.k)
      ensures old(Operand(e)) ==> r.Pass? && unchanged(this, e) && m == c.mode
      ensures r.Pass? && old(Ready(e, c) && Home(e, c)) ==>
                InPlace(e, c, m, old(Low(e))) && Moved(c, old(code), old(pend), old(k), old(nactvar))
      ensures r.Fail? ==> Exhausted(r.error)
      ensures |code| <= |old(code)| + 8 && |k| <= |old(k)| + 3 && freereg <= old(freereg) + 2
    {
      hide Ready, Keeps, NoValuesPending;
      rk := 0;
      m :- Exp2Val(e, c);
      ghost var code1, pend1, k1 := code, pend, k;
      if (e.k.VKNum? || e.k.VTrue? || e.k.VFalse?) && |k| <= MAXINDEXRK {
        rk :- ConstantRK(e, c.(mode := m));
      } else if e.k.VK? && e.k.i <= MAXINDEXRK {
        rk := e.k.i + BITRK;
        return Pass, rk, m;
      } else {
        rk, m :- Exp2AnyReg(e, c.(mode := m));
      }
      if old(Ready(e, c) && Home(e, c)) {
        MovedTwice(c, old(code), old(pend), old(k), code1, pend1, k1, nactvar);
      }
      return Pass, rk, m;
    }

    // Enters a constant operand into the table of constants.
    method ConstantRK(e: ExpDesc, ghost c: Claim) returns (r: Outcome, rk: RK)
      requires Ready(e, c) && Home(e, c) && |k| <= MAXINDEXRK && (e.k.VKNum? || e.k.VTrue? || e.k.VFalse?)
      requires e.tl == e.fl == [] && e.t == e.f == NO_JUMP
      modifies this`k, e`k
      ensures r.Pass? ==> Operand(e) && Encodes(rk, e.k) && Ready(e, c) && Home(e, c)
      ensures r.Pass? ==> Moved(c, old(code), old(pend), old(k), old(nactvar))
      ensures r.Pass? && old(NoValuesPending()) ==> NoValuesPending()
      ensures r.Fail? ==> Exhausted(r.error)
      ensures |k| <= |old(k)| + 1
    {
      hide Means, Keeps;
      KeepsSelf(code, pend, c.entry, c.start, code, pend);
      var v := match e.k case VKNum(n) => Number(n) case VTrue => Bool(true) case _ => Bool(false);
      var idx;
      r, idx := AddK(v);
      ConstantMeans(rel, Sn(e).(k := old(k)), nactvar, c, k, VK(idx));
      e.k := VK(idx);
      rk := idx + BITRK;
    }

    // ---------- binary operators ----------

    // The left operand has been read and its operator seen.
    ghost predicate Half(e: ExpDesc, c: Claim, op: BinOpr)
      reads this, e
    {
      match op
      case OprAnd => Tested(e, c, false)
      case OprOr => Tested(e, c, true)
      case OprRel(_) =>
        && Ready(e, c) && Home(e, c) && Operand(e)
        && (c.mode.Fresh? || (c.mode.Done? && NoValuesPending()))
    }

    method Infix(op: BinOpr, e: ExpDesc, ghost c: Claim) returns (r: Outcome, ghost m: Mode)
      requires Ready(e, c) && Home(e, c) && TruthyConstant(e) && c.mode.Fresh? && Fitted(e, c) && Low(e)
      modifies this, e
      ensures r.Pass? ==> Half(e, c.(mode := m), op) && Moved(c, old(code), old(pend), old(k), old(nactvar))
      ensures r.Fail? ==> Exhausted(r.error)
      ensures |code| <= |old(code)| + 8 && |k| <= |old(k)| + 3 && freereg <= old(freereg) + 2
    {
      hide Ready, Tested, Keeps;
      m := c.mode;
      match op {
        case OprAnd => r := GoIfTrue(e, c);
        case OprOr => r := GoIfFalse(e, c);
        case OprRel(_) =>
          var rk;
          r, rk, m := Exp2RK(e, c);
      }
    }

    // sn is the state after the first operand.
    static ghost predicate First(rel: Relation, op: BinOpr, sn: Snap, c: Claim, nact: nat) {
      && Placed(c, sn) && Safe(sn.code, sn.pend) && c.save == -1
      && sn.tl <= sn.pend && sn.fl <= sn.pend && sn.jl <= sn.pend && sn.tl !! sn.jl && sn.fl !! sn.jl
      && (if op.OprRel? then SnapOk(sn, nact) && Means(rel, sn, c) && Operands(sn, c)
          else Tests(rel, sn, c, op.OprOr?) && if op.OprOr? then sn.fl == {} else sn.tl == {})
    }

    // e1 still holds what it held when the code was as in sn.
    ghost predicate Waiting(op: BinOpr, e1: ExpDesc, sn: Snap, c: Claim, nact: nat)
      reads e1
    {
      && sn.kind == e1.k && sn.tl == ToSet(e1.tl) && sn.fl == ToSet(e1.fl)
      && IsList(sn.code, e1.t, e1.tl) && IsList(sn.code, e1.f, e1.fl)
      && First(rel, op, sn, c, nact) && (op.OprRel? ==> Operand(e1))
    }

    lemma HalfWaiting(op: BinOpr, e: ExpDesc, c: Claim)
      requires Half(e, c, op) && c.save == -1
      ensures Waiting(op, e, Sn(e), c, nactvar)
    {
    }

    // The code is that of sn, changed only in the jumps that were aimed at its end.
    ghost predicate Since(sn: Snap)
      reads this`code, this`pend, this`k
    {
      Keeps(sn.code, sn.pend, sn.jl, |sn.code|, code, pend) && sn.k <= k
    }

    // The second operand takes over the exits of the first.
    method JoinOperands(op: BinOpr, e1: ExpDesc, e2: ExpDesc, ghost c: Claim, ghost sn: Snap, ghost z: Term)
      returns (r: Outcome)
      requires !op.OprRel? && e1 != e2 && Waiting(op, e1, sn, c, nactvar) && Since(sn)
      requires Ready(e2, Behind(sn.code, sn.jl, z, c.keep)) && Simple(z) && Limits(c)
      modifies this`code, e1, e2
      ensures r.Pass? ==> Ready(e1, Combined(op, c, z)) && Moved(c, sn.code, sn.pend, sn.k, old(nactvar))
      ensures r.Pass? ==> e1.k == old(e2.k) && freereg == old(freereg) && k == old(k)
      ensures r.Fail? ==> Exhausted(r.error)
      ensures |code| <= |old(code)|
    {
      hide Means, Tests, SnapOk, Safe, Keeps, IsList, Placed;
      ghost var sn2 := Sn(e2);
      WaitingLists(op, e1, c, sn);
      ReadySecond(e2, c, sn, z, c.keep, Fresh);
      OperandsApart(e1, e2, c, sn, z);
      if op.OprAnd? {
        ExitsKept(e1.f, e1.fl, sn);
        :- AppendExits(e2, false, e1.f, e1.fl);
      } else {
        ExitsKept(e1.t, e1.tl, sn);
        :- AppendExits(e2, true, e1.t, e1.tl);
      }
      e1.k, e1.t, e1.f, e1.tl, e1.fl := e2.k, e2.t, e2.f, e2.tl, e2.fl;
      OperandsJoined(op, e1, c, sn, sn2, z);
      return Pass;
    }

    // A compiled expression over the locals.
    ghost predicate Simple(z: Term)
      reads this`nactvar
    {
      LeavesOnly(z) && LocalsBelow(Source(z), nactvar)
    }

    // The claim of the whole binary expression.
    static function Combined(op: BinOpr, c: Claim, z: Term): Claim {
      c.(x := BinaryTerm(op, c.x, z, c.mode.Fresh?), mode := Fresh)
    }

    // Appends the jumps of l to the exits of e of truth b.
    method AppendExits(e: ExpDesc, b: bool, l: int, ghost ys: seq<nat>) returns (r: Outcome)
      requires Linked(e) && IsList(code, l, ys) && ToSet(ys) !! (ToSet(e.tl) + ToSet(e.fl) + ToSet(jl))
      requires ToSet(e.tl) !! ToSet(e.fl) && ToSet(e.tl) !! ToSet(jl) && ToSet(e.fl) !! ToSet(jl)
      modifies this`code, e`t, e`f, e`tl, e`fl
      ensures r.Pass? ==> Linked(e) && Relinked(old(code), code, ToSet(old(e.tl)) + ToSet(old(e.fl)))
      ensures r.Pass? ==> ToSet(e.tl) == ToSet(old(e.tl)) + (if b then ToSet(ys) else {})
      ensures r.Pass? ==> ToSet(e.fl) == ToSet(old(e.fl)) + (if b then {} else ToSet(ys))
      ensures r.Fail? ==> Exhausted(r.error)
      ensures |code| <= |old(code)|
    {
      if b {
        ToSetAppend(e.tl, ys);
        e.t :- Concat(e.t, l, e.tl, ys);
        RelinkedList(old(code), code, ToSet(e.tl), e.f, e.fl);
        RelinkedList(old(code), code, ToSet(e.tl), jpc, jl);
        e.tl := e.tl + ys;
      } else {
        ToSetAppend(e.fl, ys);
        e.f :- Concat(e.f, l, e.fl, ys);
        RelinkedList(old(code), code, ToSet(e.fl), e.t, e.tl);
        RelinkedList(old(code), code, ToSet(e.fl), jpc, jl);
        e.fl := e.fl + ys;
      }
      return Pass;
    }

    lemma WaitingLists(op: BinOpr, e1: ExpDesc, c: Claim, sn: Snap)
      requires Waiting(op, e1, sn, c, nactvar)
      ensures IsList(sn.code, e1.t, e1.tl) && IsList(sn.code, e1.f, e1.fl)
      ensures ToSet(e1.tl) !! sn.jl && ToSet(e1.fl) !! sn.jl && ToSet(e1.tl) <= sn.pend && ToSet(e1.fl) <= sn.pend
    {
    }

    lemma ExitsKept(l: int, xs: seq<nat>, sn: Snap)
      requires IsList(sn.code, l, xs) && Since(sn) && ToSet(xs) <= sn.pend && ToSet(xs) !! sn.jl
      ensures IsList(code, l, xs) && ToSet(xs) <= pend
      ensures forall j | j in ToSet(xs) :: j < |sn.code|
    {
      ListMembers(sn.code, l, xs);
      forall j | j in xs ensures j < |code| && (j < |sn.code| ==> code[j] == sn.code[j]) && j in pend {
        assert j in ToSet(xs);
        assert KeepsAt(sn.code, sn.pend, sn.jl, |sn.code|, code, pend, j);
      }
      ListFrame(sn.code, code, l, xs);
    }

    // The exits of the two operands are different jumps.
    lemma OperandsApart(e1: ExpDesc, e2: ExpDesc, c: Claim, sn: Snap, z: Term)
      requires Ready(e2, Behind(sn.code, sn.jl, z, c.keep))
      requires IsList(sn.code, e1.t, e1.tl) && IsList(sn.code, e1.f, e1.fl)
      requires ToSet(e1.tl) !! sn.jl && ToSet(e1.fl) !! sn.jl
      ensures (ToSet(e1.tl) + ToSet(e1.fl)) !! (ToSet(e2.tl) + ToSet(e2.fl) + ToSet(jl))
      ensures ToSet(e2.tl) !! ToSet(e2.fl) && ToSet(e2.tl) !! ToSet(jl) && ToSet(e2.fl) !! ToSet(jl)
    {
      ListMembers(sn.code, e1.t, e1.tl); ListMembers(sn.code, e1.f, e1.fl);
    }

    // sn is the state after the first operand, sn2 after the second.
    ghost predicate Second(sn: Snap, c: Claim, sn2: Snap, z: Term, keep: nat, m: Mode)
      reads this`nactvar
    {
      var c2 := Behind(sn.code, sn.jl, z, keep).(mode := m);
      && SnapOk(sn2, nactvar) && Means(rel, sn2, c2) && Placed(c2, sn2)
      && |sn.code| <= |Body(sn2.code, sn2.kind)| && Simple(z)
      && Keeps(sn.code, sn.pend, sn.jl, |sn.code|, sn2.code, sn2.pend) && sn.k <= sn2.k
    }

    lemma ReadySecond(e2: ExpDesc, c: Claim, sn: Snap, z: Term, keep: nat, m: Mode)
      requires Ready(e2, Behind(sn.code, sn.jl, z, keep).(mode := m)) && Simple(z) && Since(sn)
      ensures Second(sn, c, Sn(e2), z, keep, m)
    {
    }

    lemma OperandsJoined(op: BinOpr, e1: ExpDesc, c: Claim, sn: Snap, sn2: Snap, z: Term)
      requires !op.OprRel? && Linked(e1) && Limits(c) && First(rel, op, sn, c, nactvar)
               && Second(sn, c, sn2, z, c.keep, Fresh)
      requires Relinked(sn2.code, code, sn2.tl + sn2.fl)
      requires Sn(e1) == sn2.(code := code, tl := sn2.tl + sn.tl, fl := sn2.fl + sn.fl)
      requires sn.tl + sn.fl !! sn2.tl + sn2.fl + sn2.jl
      ensures Ready(e1, Combined(op, c, z)) && Moved(c, sn.code, sn.pend, sn.k, nactvar)
    {
      hide Means, Tests, IsList, Safe;
      var sn3 := sn2.(tl := sn2.tl + sn.tl, fl := sn2.fl + sn.fl);
      LocalsBelowMore(Source(z), nactvar, c.keep);
      SequenceMeans(rel, sn, c, op.OprOr?, sn2, nactvar, z, sn3);
      RelinkedMeans(rel, sn3, nactvar, Combined(op, c, z), code);
      JoinedControls(op, c, sn, sn2, z);
    }

    lemma JoinedControls(op: BinOpr, c: Claim, sn: Snap, sn2: Snap, z: Term)
      requires First(rel, op, sn, c, nactvar) && Second(sn, c, sn2, z, c.keep, Fresh)
               && Relinked(sn2.code, code, sn2.tl + sn2.fl)
      requires pend == sn2.pend
      ensures Keeps(sn.code, sn.pend, c.entry, c.start, code, pend)
    {
      KeepsSelf(sn.code, sn.pend, c.entry, c.start, sn.code, sn.pend);
      KeepsTransitive(sn.code, sn.pend, c.entry, c.start, sn.code, sn.pend, sn.jl, |sn.code|, sn2.code, sn2.pend);
      forall i | 0 <= i < c.start ensures KeepsAt(sn.code, sn.pend, c.entry, c.start, code, pend, i) {
        assert KeepsAt(sn.code, sn.pend, c.entry, c.start, sn2.code, sn2.pend, i);
        assert code[i] == code[i];
      }
    }

    // Brings both operands of a comparison into place and frees their registers.
    method ComparisonOperands(e1: ExpDesc, e2: ExpDesc, ghost rop: RelOp, ghost c: Claim, ghost sn: Snap, ghost z: Term,
                              ghost keep: nat) returns (r: Outcome, o1: RK, o2: RK)
      requires e1 != e2 && Waiting(OprRel(rop), e1, sn, c, nactvar) && Since(sn)
      requires Ready(e2, Behind(sn.code, sn.jl, z, keep)) && Home(e2, Behind(sn.code, sn.jl, z, keep))
      requires Simple(z) && keep == (if e1.k.VNonReloc? && e1.k.r >= nactvar then c.keep + 1 else c.keep)
      requires e1.k.VNonReloc? && e1.k.r >= nactvar ==> e1.k.r == c.keep
      modifies this, e1, e2
      ensures unchanged(e1)
      ensures r.Pass? ==> Encodes(o1, e1.k) && Encodes(o2, e2.k) && freereg == c.keep && nactvar == old(nactvar)
      ensures r.Pass? ==>
                Operand(e2) && Second(sn, c, Sn(e2), z, keep, Done) && IsList(code, jpc, jl) && maxstacksize < MAXSTACK
      ensures r.Fail? ==> Exhausted(r.error)
      ensures |code| <= |old(code)| + 16 && |k| <= |old(k)| + 6 && freereg <= old(freereg) + 4
    {
      hide Means, SnapOk, Keeps, IsList, Placed, First, Ready, Second;
      ghost var c2 := Behind(sn.code, sn.jl, z, keep);
      ghost var m;
      o2 := 0;
      r, o1, m := Exp2RK(e1, c);
      ghost var code1, pend1, k1 := code, pend, k;
      o2, m :- Exp2RK(e2, c2);
      SinceMoved(OprRel(rop), c, sn, c2, code1, pend1, k1);
      FreeExp(e2);
      FreeExp(e1);
      Less(e2, c2.(mode := m), Done);
      ReadySecond(e2, c, sn, z, keep, Done);
      OperandList(e2, c2.(mode := Done));
      return Pass, o1, o2;
    }

    // Compares two operands; `>` and `>=` exchange them, `~=` inverts the condition.
    method CodeComp(op: CmpOp, cond: bool, e1: ExpDesc, e2: ExpDesc, ghost rop: RelOp,
                    ghost c: Claim, ghost sn: Snap, ghost z: Term, ghost keep: nat) returns (r: Outcome)
      requires e1 != e2 && Waiting(OprRel(rop), e1, sn, c, nactvar) && Since(sn) && Limits(c)
      requires Ready(e2, Behind(sn.code, sn.jl, z, keep)) && Home(e2, Behind(sn.code, sn.jl, z, keep))
      requires Simple(z) && keep == (if e1.k.VNonReloc? && e1.k.r >= nactvar then c.keep + 1 else c.keep)
      requires e1.k.VNonReloc? && e1.k.r >= nactvar ==> e1.k.r == c.keep
      requires Implements(op, cond, rop)
      modifies this, e1, e2
      ensures r.Pass? ==> Ready(e1, Combined(OprRel(rop), c, z)) && Moved(c, sn.code, sn.pend, sn.k, old(nactvar))
      ensures r.Pass? ==> e1.k.VJmp? && freereg == c.keep
      ensures r.Fail? ==> Exhausted(r.error)
      ensures |code| <= |old(code)| + 18 && |k| <= |old(k)| + 6 && freereg <= old(freereg) + 4
    {
      hide Means, SnapOk, Keeps, IsList, Placed, First, Ready, Second, Implements, Since;
      var o1, o2 :- ComparisonOperands(e1, e2, rop, c, sn, z, keep);
      ghost var sn2 := Sn(e2);
      var swap := !cond && !op.OpEq?;
      var test := Cmp(op, cond || swap, if swap then o2 else o1, if swap then o1 else o2);
      SecondBound(sn, c, sn2, z, keep);
      var pc :- CondJump(test);
      e1.k := VJmp(pc);
      pend := pend - sn2.jl;
      EmptyList(code);
      ComparisonEmitted(rop, e1, c, sn, sn2, z, keep, op, cond, o1, o2);
      return Pass;
    }

    lemma SecondBound(sn: Snap, c: Claim, sn2: Snap, z: Term, keep: nat)
      requires Second(sn, c, sn2, z, keep, Done)
      ensures SnapOk(sn2, nactvar)
    {
    }

    // The instruction and condition that stand for a relational operator.
    ghost predicate Implements(op: CmpOp, cond: bool, rop: RelOp) {
      match rop
      case EQ => op.OpEq? && cond
      case NE => op.OpEq? && !cond
      case LT => op.OpLt? && cond
      case LE => op.OpLe? && cond
      case GT => op.OpLt? && !cond
      case GE => op.OpLe? && !cond
    }

    lemma OperandList(e: ExpDesc, c: Claim)
      requires Ready(e, c)
      ensures IsList(code, jpc, jl) && Limits(c)
    {
    }

    lemma SinceMoved(op: BinOpr, c: Claim, sn: Snap, c2: Claim, code1: seq<Instr>, pend1: set<nat>, k1: seq<Value>)
      requires c2.start == |sn.code| && c2.entry == sn.jl && Keeps(sn.code, sn.pend, sn.jl, |sn.code|, code1, pend1)
      requires sn.k <= k1 && Moved(c2, code1, pend1, k1, nactvar)
      requires First(rel, op, sn, c, nactvar)
      ensures Since(sn)
    {
      if |sn.code| >= 1 { SafeEnd(sn.code, sn.pend); }
      KeepsTransitive(sn.code, sn.pend, sn.jl, |sn.code|, code1, pend1, c2.entry, c2.start, code, pend);
    }

    lemma ComparisonEmitted(rop: RelOp, e1: ExpDesc, c: Claim, sn: Snap, sn2: Snap, z: Term, keep: nat,
                            op: CmpOp, cond: bool, o1: RK, o2: RK)
      requires Implements(op, cond, rop)
      requires Linked(e1) && Limits(c) && First(rel, OprRel(rop), sn, c, nactvar) && Second(sn, c, sn2, z, keep, Done)
      requires sn2.tl == sn2.fl == {} && Encodes(o1, sn.kind) && Encodes(o2, sn2.kind) && c.keep <= keep < MAXSTACK
      requires sn.kind.VNonReloc? ==> sn.kind.r < keep
      requires var swap := !cond && !op.OpEq?;
               code == Landed(sn2.code, sn2.jl) +
                       [Cmp(op, cond || swap, if swap then o2 else o1, if swap then o1 else o2), Jmp(NO_JUMP)]
      requires e1.k == VJmp(|sn2.code| + 1) && e1.tl == e1.fl == [] && jl == [] && pend == sn2.pend - sn2.jl
               && k == sn2.k
      ensures Ready(e1, Combined(OprRel(rop), c, z)) && Moved(c, sn.code, sn.pend, sn.k, nactvar)
    {
      hide Means, Keeps, Placed, Safe, Implements, RKValue, Holds, IsList, SnapOk;
      var swap := !cond && !op.OpEq?;
      var test := Cmp(op, cond || swap, if swap then o2 else o1, if swap then o1 else o2);
      var tail := [test, Jmp(NO_JUMP)];
      LocalsBelowMore(Source(z), nactvar, c.keep);
      PlacedFits(c, sn);
      ComparisonImplements(rop, sn, sn2, op, cond, o1, o2);
      CompareMeans(rel, sn, c, nactvar, sn2, z, keep, rop, test, Sn(e1));
      ComparisonKeeps(rop, c, sn, sn2, z, keep, tail);
      PlacedStays(c, sn, Sn(e1), CompareOf(rop, c.x, z, c.mode.Fresh?), Fresh);
    }

    lemma PlacedFits(c: Claim, sn: Snap)
      requires Placed(c, sn)
      ensures Fits(c, |sn.code|) && c.start <= |sn.code| && (c.start >= 1 ==> !IsTest(sn.code[c.start - 1]))
    {
    }

    lemma ComparisonKeeps(rop: RelOp, c: Claim, sn: Snap, sn2: Snap, z: Term, keep: nat, tail: seq<Instr>)
      requires First(rel, OprRel(rop), sn, c, nactvar) && Second(sn, c, sn2, z, keep, Done) && |tail| >= 1
      requires !sn2.kind.VJmp? && code == Landed(sn2.code, sn2.jl) + tail && Body(sn2.code, sn2.kind) == sn2.code
      requires pend == sn2.pend - sn2.jl
      ensures Keeps(sn.code, sn.pend, c.entry, c.start, code, pend)
    {
      var c2 := Behind(sn.code, sn.jl, z, keep).(mode := Done);
      if |sn.code| >= 1 { SafeEnd(sn.code, sn.pend); }
      LandedKeeps(sn2, c2, tail, pend);
      KeepsTransitive(sn.code, sn.pend, sn.jl, |sn.code|, sn2.code, sn2.pend, sn.jl, |sn.code|, code, pend);
      KeepsSelf(sn.code, sn.pend, c.entry, c.start, sn.code, sn.pend);
      KeepsTransitive(sn.code, sn.pend, c.entry, c.start, sn.code, sn.pend, sn.jl, |sn.code|, code, pend);
    }

    lemma ComparisonImplements(rop: RelOp, sn: Snap, sn2: Snap, op: CmpOp, cond: bool, o1: RK, o2: RK)
      requires Implements(op, cond, rop) && Encodes(o1, sn.kind) && Encodes(o2, sn2.kind)
      ensures var swap := !cond && !op.OpEq?;
              var test := Cmp(op, cond || swap, if swap then o2 else o1, if swap then o1 else o2);
              forall kf, r {:trigger RKValue(kf, r, test.rb)} :: sn2.k <= kf ==>
                (rel(test.op, RKValue(kf, r, test.rb), RKValue(kf, r, test.rc)) == test.cond <==>
                 Holds(rel, rop, TailValue(rel, kf, sn.code, sn.kind, r), TailValue(rel, kf, sn2.code, sn2.kind, r)))
    {
      var swap := !cond && !op.OpEq?;
      var test := Cmp(op, cond || swap, if swap then o2 else o1, if swap then o1 else o2);
      forall kf, r: Regs | sn2.k <= kf
        ensures rel(test.op, RKValue(kf, r, test.rb), RKValue(kf, r, test.rc)) == test.cond <==>
                Holds(rel, rop, TailValue(rel, kf, sn.code, sn.kind, r), TailValue(rel, kf, sn2.code, sn2.kind, r))
      {
        assert RKValue(kf, r, o1) == TailValue(rel, kf, sn.code, sn.kind, r);
        assert RKValue(kf, r, o2) == TailValue(rel, kf, sn2.code, sn2.kind, r);
      }
    }

    method Posfix(op: BinOpr, e1: ExpDesc, e2: ExpDesc, ghost c: Claim, ghost sn: Snap, ghost z: Term, ghost keep: nat)
      returns (r: Outcome)
      requires e1 != e2 && Waiting(op, e1, sn, c, nactvar) && Since(sn) && Limits(c) && Simple(z)
      requires Ready(e2, Behind(sn.code, sn.jl, z, keep)) && Home(e2, Behind(sn.code, sn.jl, z, keep))
      requires if op.OprRel? && e1.k.VNonReloc? && e1.k.r >= nactvar then e1.k.r == c.keep && keep == c.keep + 1
               else keep == c.keep
      requires !op.OprRel? ==> freereg == c.keep
      modifies this, e1, e2
      ensures r.Pass? ==> Ready(e1, Combined(op, c, z)) && Moved(c, sn.code, sn.pend, sn.k, old(nactvar))
      ensures r.Pass? ==> freereg == c.keep
      ensures r.Pass? && op.OprRel? ==> e1.k.VJmp?
      ensures r.Pass? && !op.OprRel? ==>
                e1.k == (if old(e2.k).VLocal? then VNonReloc(old(e2.k).r) else old(e2.k)) && k == old(k)
      ensures r.Fail? ==> Exhausted(r.error)
      ensures |code| <= |old(code)| + 18 && |k| <= |old(k)| + 6 && freereg <= old(freereg) + 4
    {
      hide Ready, Waiting, Since, Keeps, Moved;
      match op {
        case OprRel(EQ) => r := CodeComp(OpEq, true, e1, e2, EQ, c, sn, z, keep);
        case OprRel(NE) => r := CodeComp(OpEq, false, e1, e2, NE, c, sn, z, keep);
        case OprRel(LT) => r := CodeComp(OpLt, true, e1, e2, LT, c, sn, z, keep);
        case OprRel(LE) => r := CodeComp(OpLe, true, e1, e2, LE, c, sn, z, keep);
        case OprRel(GT) => r := CodeComp(OpLt, false, e1, e2, GT, c, sn, z, keep);
        case OprRel(GE) => r := CodeComp(OpLe, false, e1, e2, GE, c, sn, z, keep);
        case _ =>
          DischargeVars(e2, Behind(sn.code, sn.jl, z, keep));
          r := JoinOperands(op, e1, e2, c, sn, z);
      }
    }

    // ---------- whole expressions ----------

    // Code for an expression begins here.
    ghost predicate Begins(c: Claim)
      reads this
    {
      && Limits(c) && c == Behind(code, ToSet(jl), c.x, freereg)
      && IsList(code, jpc, jl) && Safe(code, pend) && ToSet(jl) <= pend
    }

    // An operand without code of its own.
    lemma LeafReady(e: ExpDesc, c: Claim, x: Expr)
      requires Begins(c) && e.t == e.f == NO_JUMP && e.tl == e.fl == [] && Describes(e.k, x) && c.x == Leaf(x)
      ensures Ready(e, c) && Moved(c, code, pend, k, nactvar)
    {
      hide Keeps, Delivers;
      ListMembers(code, jpc, jl);
      EmptyList(code);
      if |code| >= 1 { SafeEnd(code, pend); }
      KeepsSelf(code, pend, c.entry, c.start, code, pend);
      forall kf, i, q: Regs | k <= kf && (i == c.start || i in c.entry)
        ensures var (loc, r1) := Exec(rel, kf, code, pend, i, Stored(code, i, q));
                Delivers(rel, kf, Sn(e), c, CarryAt(c, i, q), q, loc, r1)
      {
        LeafDelivers(e, c, x, kf, i, q);
      }
    }

    lemma LeafDelivers(e: ExpDesc, c: Claim, x: Expr, kf: seq<Value>, i: nat, q: Regs)
      requires Begins(c) && e.tl == e.fl == [] && Describes(e.k, x) && c.x == Leaf(x)
      requires k <= kf && (i == c.start || i in c.entry)
      ensures Stored(code, i, q) == q && Exec(rel, kf, code, pend, i, q) == (i, q)
      ensures Delivers(rel, kf, Sn(e), c, CarryAt(c, i, q), q, i, q)
    {
      hide Step;
      if i >= 1 { assert SafeAt(code, pend, i - 1); }
      assert TailValue(rel, kf, code, e.k, q) == LeafValue(x, q);
    }

    // A local, or a literal together with its place in the table of constants.
    ghost predicate Describes(kind: Kind, x: Expr)
      reads this`k, this`nactvar
    {
      match x
      case Local(q) => q < nactvar && q < 256 && kind == VLocal(q)
      case True => kind == VTrue
      case False => kind == VFalse
      case Num(n) => kind == VKNum(n)
      case Str(s) => kind.VK? && kind.i < |k| && k[kind.i] == LuaValues.Str(s)
      case _ => false
    }

    lemma HalfBegins(op: BinOpr, e: ExpDesc, c: Claim, z: Term)
      requires Half(e, c, op) && c.save == -1
      ensures Limits(c) && Waiting(op, e, Sn(e), c, nactvar) && Begins(Behind(code, ToSet(jl), z, freereg))
      ensures if op.OprRel? && e.k.VNonReloc? && e.k.r >= nactvar then e.k.r == c.keep && freereg == c.keep + 1
              else freereg == c.keep
    {
      HalfWaiting(op, e, c);
    }

    static lemma RightIsLess(op: BinOpr, y: Expr, z: Expr)
      ensures z < Binary(op, y, z)
    {
      match op
      case OprAnd => assert Binary(op, y, z) == And(y, z);
      case OprOr => assert Binary(op, y, z) == Or(y, z);
      case OprRel(rop) => assert Binary(op, y, z) == Compare(rop, y, z);
    }

    static lemma BinaryIs(op: BinOpr, y: Term, z: Term, kept: bool)
      requires LeavesOnly(y) && LeavesOnly(z)
      ensures var t := BinaryTerm(op, y, z, kept);
              Source(t) == Binary(op, Source(y), Source(z)) && LeavesOnly(t)
              && Lit(Source(t)) == if op.OprRel? then LTest else Lit(Source(z))
    {
    }

    lemma ReadyLimits(e: ExpDesc, c: Claim)
      requires Ready(e, c)
      ensures Limits(c) && (e.k.VLocal? ==> e.k.r < nactvar)
    {
    }

    // The value of x is described by e, which claims what t says; code is emitted only as far as it is needed.
    method Compile(x: Expr, e: ExpDesc, ghost c: Claim) returns (r: Outcome, ghost t: Term)
      requires Begins(c) && LocalsBelow(x, nactvar)
      modifies this, e
      ensures r.Pass? ==> Ready(e, c.(x := t)) && Home(e, c) && Moved(c, old(code), old(pend), old(k), old(nactvar))
      ensures r.Pass? ==> Source(t) == x && LeavesOnly(t) && Fitted(e, c.(x := t)) && TruthyConstant(e) && Low(e)
      ensures r.Pass? ==> freereg == c.keep
      ensures r.Fail? ==> Exhausted(r.error)
      ensures |code| <= |old(code)| + 26 * Size(x) && |k| <= |old(k)| + 9 * Size(x) && freereg <= c.keep + Size(x) + 4
      decreases x, 1
    {
      hide Ready, Keeps, LocalsBelow, Begins;
      t := Leaf(x);
      BeginsAs(c, t);
      match x {
        case Not(y) =>
          assert LocalsBelow(y, nactvar) by { NotParts(y, nactvar); }
          t :- Compile(y, e, c);
          ghost var code1, pend1, k1 := code, pend, k;
          :- CodeNot(e, c.(x := t));
          MovedTwice(c, old(code), old(pend), old(k), code1, pend1, k1, nactvar);
          t := NotOf(t);
          return Pass, t;
        case And(y, z) => r, t := CompileBinary(OprAnd, y, z, e, c);
        case Or(y, z) => r, t := CompileBinary(OprOr, y, z, e, c);
        case Compare(op, y, z) => r, t := CompileBinary(OprRel(op), y, z, e, c);
        case _ => r := CompileLeaf(x, e, c.(x := t));
      }
    }

    lemma BeginsAs(c: Claim, t: Term)
      requires Begins(c)
      ensures c.mode.Fresh? && c.save == -1 && c.keep == freereg && Begins(c.(x := t))
    {
    }

    static lemma NotParts(y: Expr, n: nat)
      requires LocalsBelow(Expr.Not(y), n)
      ensures LocalsBelow(y, n)
    {
    }

    // Locals and literals: no code.
    method CompileLeaf(x: Expr, e: ExpDesc, ghost c: Claim) returns (r: Outcome)
      requires Begins(c) && c.x == Leaf(x) && IsLeaf(x) && LocalsBelow(x, nactvar)
      modifies this`k, e
      ensures r.Pass? ==> Ready(e, c) && Home(e, c) && Moved(c, old(code), old(pend), old(k), old(nactvar))
      ensures r.Pass? ==> Fitted(e, c) && TruthyConstant(e) && Low(e) && freereg == c.keep
      ensures r.Fail? ==> Exhausted(r.error)
      ensures |k| <= |old(k)| + 1
    {
      hide Ready, Keeps, IsList, Safe;
      e.k, e.t, e.f, e.tl, e.fl := VFalse, NO_JUMP, NO_JUMP, [], [];
      match x {
        case Local(q) => e.k := VLocal(q);
        case True => e.k := VTrue;
        case False =>
        case Num(n) => e.k := VKNum(n);
        case Str(s) =>
          var idx :- AddK(LuaValues.Str(s));
          e.k := VK(idx);
      }
      LeafReady(e, c, x);
      return Pass;
    }

    method CompileBinary(op: BinOpr, y: Expr, z: Expr, e: ExpDesc, ghost c: Claim) returns (r: Outcome, ghost t: Term)
      requires Begins(c) && LocalsBelow(Binary(op, y, z), nactvar)
      modifies this, e
      ensures r.Pass? ==> Ready(e, c.(x := t)) && Home(e, c) && Moved(c, old(code), old(pend), old(k), old(nactvar))
      ensures r.Pass? ==> Source(t) == Binary(op, y, z) && LeavesOnly(t)
      ensures r.Pass? ==> Fitted(e, c.(x := t)) && TruthyConstant(e) && Low(e) && freereg == c.keep
      ensures r.Fail? ==> Exhausted(r.error)
      ensures var n := Size(Binary(op, y, z));
              |code| <= |old(code)| + 26 * n && |k| <= |old(k)| + 9 * n && freereg <= c.keep + n + 4
      decreases Binary(op, y, z), 0, 1
    {
      hide Ready, Tested, Half, Keeps, Plain, LocalsBelow, Binary, Size, Begins;
      BinaryParts(op, y, z, nactvar);
      BeginsAs(c, c.x);
      t :- Compile(y, e, c);
      ghost var cy := c.(x := t);
      ghost var code1, pend1, k1 := code, pend, k;
      ghost var m;
      m :- Infix(op, e, cy);
      MovedTwice(c, old(code), old(pend), old(k), code1, pend1, k1, nactvar);
      code1, pend1, k1 := code, pend, k;
      t :- CompileRight(op, y, z, e, cy.(mode := m));
      MovedTwice(c, old(code), old(pend), old(k), code1, pend1, k1, nactvar);
      return Pass, t;
    }

    static lemma BinaryParts(op: BinOpr, y: Expr, z: Expr, n: nat)
      requires LocalsBelow(Binary(op, y, z), n)
      ensures LocalsBelow(y, n) && LocalsBelow(z, n)
      ensures y < Binary(op, y, z) && z < Binary(op, y, z) && Size(Binary(op, y, z)) == 1 + Size(y) + Size(z)
    {
      match op
      case OprAnd => assert Binary(op, y, z) == And(y, z);
      case OprOr => assert Binary(op, y, z) == Or(y, z);
      case OprRel(rop) => assert Binary(op, y, z) == Compare(rop, y, z);
    }

    // The second operand, with the first one waiting.
    method CompileRight(op: BinOpr, y: Expr, z: Expr, e: ExpDesc, ghost c: Claim) returns (r: Outcome, ghost t: Term)
      requires Half(e, c, op) && c.save == -1 && Source(c.x) == y && LeavesOnly(c.x) && LocalsBelow(z, nactvar)
      modifies this, e
      ensures r.Pass? ==>
                Ready(e, c.(x := t, mode := Fresh)) && Home(e, c)
                  && Moved(c, old(code), old(pend), old(k), old(nactvar))
      ensures r.Pass? ==> Source(t) == Binary(op, y, z) && LeavesOnly(t)
      ensures r.Pass? ==> Fitted(e, c.(x := t)) && TruthyConstant(e) && Low(e) && freereg == c.keep
      ensures r.Fail? ==> Exhausted(r.error)
      ensures |code| <= |old(code)| + 26 * Size(z) + 18 && |k| <= |old(k)| + 9 * Size(z) + 6
              && freereg <= c.keep + Size(z) + 5
      decreases Binary(op, y, z), 0, 0
    {
      hide Ready, Half, Keeps, Waiting, IsList, Safe, Begins, Lit, Source, LeavesOnly, Size, LocalsBelow, Binary,
           BinaryTerm;
      ghost var sn, keep := Sn(e), freereg;
      t := c.x;
      HalfBegins(op, e, c, c.x);
      var e2 := new ExpDesc(VFalse);
      ghost var c2 := Behind(code, ToSet(jl), c.x, freereg);
      RightIsLess(op, y, z);
      t :- Compile(z, e2, c2);
      ReadyLimits(e2, c2.(x := t));
      :- Posfix(op, e, e2, c, sn, t, keep);
      BinaryIs(op, c.x, t, c.mode.Fresh?);
      t := BinaryTerm(op, c.x, t, c.mode.Fresh?);
      return Pass, t;
    }

    // Aims the last jumps at the end of the code, as emitting any instruction would.
    method Finish(e: ExpDesc, reg: Reg, ghost c: Claim) returns (r: Outcome)
      requires Ready(e, c) && e.k == VNonReloc(reg) && e.tl == e.fl == [] && c.start == 0 && c.carried == map[]
               && c.mode.Done?
      modifies this`code, this`jpc, this`jl, this`pend
      ensures r.Pass? ==> Computes(rel, code, k, c, reg)
      ensures r.Fail? ==> Exhausted(r.error)
      ensures |code| <= |old(code)|
    {
      ghost var sn := Sn(e);
      :- DischargeJpc();
      pend := pend - sn.jl;
      LandMeans(rel, sn, nactvar, c, sn.(code := code, pend := pend, jl := {}));
      MeansComputes(c, reg, sn.(code := code, pend := pend, jl := {}));
      return Pass;
    }

    lemma MeansComputes(c: Claim, reg: Reg, sn: Snap)
      requires SnapOk(sn, nactvar) && Means(rel, sn, c) && c.start == 0 && c.carried == map[]
      requires sn.kind == VNonReloc(reg) && sn.tl == sn.fl == sn.jl == {}
      ensures Computes(rel, sn.code, sn.k, c, reg)
    {
      forall kf, q: Regs | sn.k <= kf
        ensures var q' := Run(rel, kf, sn.code, 0, q); q'[reg] == Emitted(rel, c.x, q) && Kept(c, q, q')
      {
        MeansAt(rel, sn, c, kf, 0, q);
        ExecIsRun(rel, kf, sn.code, sn.pend, 0, q);
      }
    }

    // Code for an expression whose value goes to v, a local variable.
    method Assign(x: Expr, v: nat) returns (r: Outcome, ghost t: Term)
      requires Begins(Behind([], {}, Leaf(x), nactvar)) && code == [] && k == []
      requires v < nactvar < MAXSTACK && LocalsBelow(x, nactvar)
      modifies this
      ensures r.Pass? ==> Source(t) == x && LeavesOnly(t)
      ensures r.Pass? ==> Computes(rel, code, k, Behind([], {}, t, old(nactvar)).(save := v), v)
      ensures r.Fail? ==> Exhausted(r.error)
      ensures |code| <= 26 * Size(x) + 4 && |k| <= 9 * Size(x) + 1 && freereg <= old(nactvar) + Size(x) + 5
    {
      hide Ready, Keeps, Computes, LocalsBelow, Size;
      var e := new ExpDesc(VFalse);
      ghost var c := Behind([], {}, Leaf(x), nactvar);
      t :- Compile(x, e, c);
      FreeExp(e);
      Spare(e, c.(x := t), v);
      ghost var c' := c.(x := t, save := v);
      :- Exp2Reg(e, v, c');
      :- Finish(e, v, c'.(mode := Done));
      ComputesValue(c', v);
      return Pass, t;
    }

    // Code for an expression whose value goes to the first free register.
    method Declare(x: Expr) returns (r: Outcome, ghost t: Term)
      requires Begins(Behind([], {}, Leaf(x), nactvar)) && code == [] && k == []
      requires nactvar < MAXSTACK && LocalsBelow(x, nactvar)
      modifies this
      ensures r.Pass? ==> Source(t) == x && LeavesOnly(t)
      ensures r.Pass? ==> Computes(rel, code, k, Behind([], {}, t, old(nactvar)), old(nactvar))
      ensures r.Fail? ==> Exhausted(r.error)
      ensures |code| <= 26 * Size(x) + 4 && |k| <= 9 * Size(x) + 1 && freereg <= old(nactvar) + Size(x) + 5
    {
      hide Ready, Keeps, Computes, LocalsBelow, Size;
      var reg := nactvar;
      var e := new ExpDesc(VFalse);
      ghost var c := Behind([], {}, Leaf(x), nactvar);
      t :- Compile(x, e, c);
      :- Exp2NextReg(e, c.(x := t));
      :- Finish(e, reg, c.(x := t, mode := Done));
      ComputesValue(c.(x := t), reg);
      return Pass, t;
    }

    // What is computed does not depend on what else the claim told.
    lemma ComputesValue(c: Claim, reg: Reg)
      requires Computes(rel, code, k, c.(mode := Done), reg)
      ensures Computes(rel, code, k, c, reg)
    {
      forall kf, q: Regs | k <= kf
        ensures var q' := Run(rel, kf, code, 0, q); q'[reg] == Emitted(rel, c.x, q) && Kept(c, q, q')
      {
        assert Kept(c.(mode := Done), q, Run(rel, kf, code, 0, q));
      }
    }

    lemma BeginsEmpty(x: Expr)
      requires code == [] && k == [] && jpc == NO_JUMP && jl == [] && pend == {}
      requires freereg == nactvar == maxstacksize < MAXSTACK
      ensures Begins(Behind([], {}, Leaf(x), nactvar))
    {
      assert Values([], {}) == Values(code, ToSet(jl));
    }

    // A claim that allows one more register to be overwritten is weaker.
    lemma Spare(e: ExpDesc, c: Claim, save: nat)
      requires Ready(e, c) && c.save == -1 && save < MAXSTACK
      ensures Ready(e, c.(save := save))
    {
      var body := Body(code, e.k);
      forall kf, i, q: Regs | k <= kf && (i == c.start || i in c.entry)
        ensures var (loc, r1) := Exec(rel, kf, body, pend, i, Stored(body, i, q));
                Delivers(rel, kf, Sn(e), c.(save := save), CarryAt(c, i, q), q, loc, r1)
      {
        MeansAt(rel, Sn(e), c, kf, i, q);
      }
    }
  }

  // Running the code leaves the value that the expression's code is to leave in reg and keeps the locals.
  ghost predicate Computes(rel: Relation, code: seq<Instr>, k: seq<Value>, c: Claim, reg: Reg) {
    forall kf, q {:trigger Run(rel, kf, code, 0, q)} :: k <= kf ==>
      var q' := Run(rel, kf, code, 0, q);
      q'[reg] == Emitted(rel, c.x, q) && Kept(c, q, q')
  }

  // `v = x` for a local variable v. The code leaves what t, which x was compiled
  // as, is to leave: the value of x if x is right. Where every path can be taken
  // and x is not right, it does not always.
  method CompileAssignment(params: nat, x: Expr, v: nat, ghost rel: Relation)
    returns (r: Outcome, code: seq<Instr>, k: seq<Value>, ghost t: Term)
    requires v < params < MAXSTACK && LocalsBelow(x, params)
    ensures r.Pass? ==> Source(t) == x && LeavesOnly(t)
    ensures r.Pass? ==> forall kf, q {:trigger Run(rel, kf, code, 0, q)} :: k <= kf ==>
              var q' := Run(rel, kf, code, 0, q);
              && q'[v] == Emitted(rel, t, q)
              && (Right(x, false) ==> q'[v] == Eval(rel, x, q))
              && forall i | 0 <= i < params && i != v :: q'[i] == q[i]
    ensures r.Pass? && ReadOnce(x) && !Right(x, false) && rel == NilRelation() ==>
              exists q {:trigger Eval(rel, x, q)} ::
                forall kf | k <= kf :: Run(rel, kf, code, 0, q)[v] != Eval(rel, x, q)
    ensures params + Size(x) + 8 <= 250 ==> r.Pass?
  {
    hide LocalsBelow, Size, Run, Eval, Emitted, Right, ReadOnce, NilRelation;
    var fs := new FuncState(params, rel);
    fs.BeginsEmpty(x);
    r, t := fs.Assign(x, v);
    code, k := fs.code, fs.k;
    if r.Pass? { EmittedRight(rel, t, params); }
  }

  // `local v = x`: the value goes to the first free register.
  method CompileLocal(params: nat, x: Expr, ghost rel: Relation)
    returns (r: Outcome, code: seq<Instr>, k: seq<Value>, ghost t: Term)
    requires params < MAXSTACK && LocalsBelow(x, params)
    ensures r.Pass? ==> Source(t) == x && LeavesOnly(t)
    ensures r.Pass? ==> forall kf, q {:trigger Run(rel, kf, code, 0, q)} :: k <= kf ==>
              var q' := Run(rel, kf, code, 0, q);
              && q'[params] == Emitted(rel, t, q)
              && (Right(x, false) ==> q'[params] == Eval(rel, x, q))
              && forall i | 0 <= i < params :: q'[i] == q[i]
    ensures r.Pass? && ReadOnce(x) && !Right(x, false) && rel == NilRelation() ==>
              exists q {:trigger Eval(rel, x, q)} ::
                forall kf | k <= kf :: Run(rel, kf, code, 0, q)[params] != Eval(rel, x, q)
    ensures params + Size(x) + 8 <= 250 ==> r.Pass?
  {
    hide LocalsBelow, Size, Run, Eval, Emitted, Right, ReadOnce, NilRelation;
    var fs := new FuncState(params, rel);
    fs.BeginsEmpty(x);
    r, t := fs.Declare(x);
    code, k := fs.code, fs.k;
    if r.Pass? { EmittedRight(rel, t, params); }
  }

  // What the code of t leaves is the value of its source if that is right, and if
  // every path can be taken, only then.
  lemma EmittedRight(rel: Relation, t: Term, params: nat)
    requires LeavesOnly(t) && LocalsBelow(Source(t), params) && params <= 256
    ensures Right(Source(t), false) ==>
              forall q {:trigger Emitted(rel, t, q)} :: Emitted(rel, t, q) == Eval(rel, Source(t), q)
    ensures ReadOnce(Source(t)) && !Right(Source(t), false) && rel == NilRelation() ==>
              exists q {:trigger Emitted(rel, t, q)} :: Emitted(rel, t, q) != Eval(rel, Source(t), q)
  {
    var x := Source(t);
    LocalsBelowMore(x, params, 256);
    if Right(x, false) {
      forall q: Regs ensures Emitted(rel, t, q) == Eval(rel, x, q) { CourseRight(rel, t, q, Nothing); }
    } else if ReadOnce(x) && rel == NilRelation() {
      var q := Mistaken(t);
      assert Emitted(rel, t, q) != Eval(rel, x, q);
    }
  }

  // ---------- a literal operand that loses a value ----------

  // ((a and b) or false) and c, with a, b and c in registers 0, 1 and 2.
  function AbsorbedExit(): Expr {
    And(Or(And(Local(0), Local(1)), False), Local(2))
  }

  function AbsorbedExitCode(): seq<Instr> {
    [TestSet(3, 0, false), Jmp(7), Test(1, true), Jmp(1), Jmp(2), Move(3, 2), Jmp(2),
     LoadBool(3, false, true), LoadBool(3, true, false)]
  }

  function AbsorbedExitStart(): seq<Instr> {
    [TestSet(NO_REG, 0, false), Jmp(NO_JUMP), TestSet(NO_REG, 1, true), Jmp(NO_JUMP), Jmp(-4)]
  }

  // The calls that are made for (a and b), for `or` and for the `and` behind the
  // literal: the unconditional jump (4) absorbs the exit of `a and b` (1).
  method StartAbsorbedExit(ghost rel: Relation) returns (r: Outcome, fs: FuncState, f: int, ghost xs: seq<nat>)
    ensures r.Pass? && fresh(fs) && fs.freereg == 3 && fs.k == []
    ensures fs.code == AbsorbedExitStart() && IsList(fs.code, f, [4, 1]) && xs == [4, 1]
    ensures fs.jl == [3] && IsList(fs.code, fs.jpc, [3])
  {
    hide IsList;
    fs := new FuncState(3, rel);
    f, xs := NO_JUMP, [];
    EmptyList(fs.code);
    assert ToSet([]) == {};
    LandedNothing(fs.code);
    var a, b;
    r, a := fs.CondJump(TestSet(NO_REG, 0, false));
    ghost var code1 := fs.code;
    EmptyList(code1);
    LandedNothing(code1);
    r, b := fs.CondJump(TestSet(NO_REG, 1, true));
    EmptyList(fs.code);
    Singleton(fs.code, 1);
    r := fs.PatchToHere(a, [1]);
    assert fs.jl == [1];
    r, f, xs := fs.Jump();
    FirstLink(fs.code, f, xs);
    assert fs.code[..4] == AbsorbedExitStart()[..4];
    assert fs.code == fs.code[..4] + [fs.code[4]];
    assert xs == [4, 1] && fs.code == AbsorbedExitStart();
    EmptyList(fs.code);
    Singleton(fs.code, 3);
    r := fs.PatchToHere(b, [3]);
    assert fs.jl == [3];
    assert fs.code == AbsorbedExitStart();
  }

  lemma FirstLink(code: seq<Instr>, l: int, xs: seq<nat>)
    requires IsList(code, l, xs) && |xs| == 2
    ensures xs[0] < |code| && code[xs[0]] == Jmp(xs[1] as int - (xs[0] + 1))
  {
    assert LinkAt(code, xs, 0);
  }

  // The rest: c is moved to register 3, the loads are added and the exits patched.
  method EmitAbsorbedExit(ghost rel: Relation) returns (r: Outcome, code: seq<Instr>)
    ensures r.Pass? && code == AbsorbedExitCode()
  {
    hide IsList;
    var fs, f; ghost var xs;
    r, fs, f, xs := StartAbsorbedExit(rel);
    ghost var code5 := fs.code;
    assert ToSet([3]) == {3};
    var pc;
    r, pc := fs.Code(Move(3, 2));
    ghost var code6 := [TestSet(NO_REG, 0, false), Jmp(NO_JUMP), Test(1, true), Jmp(1), Jmp(-4), Move(3, 2)];
    assert fs.code == code6;
    EmptyList(fs.code);
    ListFrame(code5, fs.code, f, xs);
    var pf, pt; ghost var extra;
    r, pf, pt, extra := fs.AddLoads(3, true);
    ListFrame(code6, fs.code, f, xs);
    assert extra == [extra[0]] + extra[1..];
    r := FinishAbsorbedExit(fs, f, pf, extra[0], xs);
    code := fs.code;
  }

  method FinishAbsorbedExit(fs: FuncState, f: int, pf: int, ghost jump: Instr, ghost xs: seq<nat>) returns (r: Outcome)
    requires fs.code == [TestSet(NO_REG, 0, false), Jmp(NO_JUMP), Test(1, true), Jmp(1), Jmp(-4), Move(3, 2), jump,
                         LoadBool(3, false, true), LoadBool(3, true, false)]
    requires jump.Jmp? && IsList(fs.code, f, xs) && xs == [4, 1] && pf == 7
    requires IsList(fs.code, fs.jpc, fs.jl) && ToSet(fs.jl) == {6} && fs.freereg == 3 && fs.k == []
    modifies fs
    ensures r.Pass? && fs.code == AbsorbedExitCode()
  {
    hide IsList;
    var final := fs.GetLabel();
    ghost var code9 := fs.code;
    assert ToSet(xs) == {4, 1};
    fs.PatchedList(code9, xs, final, 3, pf, fs.jpc, fs.jl);
    r := fs.PatchListAux(f, final, 3, pf, xs);
    AbsorbedExitPatched(code9, jump);
    r := fs.DischargeJpc();
  }

  lemma AbsorbedExitPatched(code9: seq<Instr>, jump: Instr)
    requires jump.Jmp?
    requires code9 == [TestSet(NO_REG, 0, false), Jmp(NO_JUMP), Test(1, true), Jmp(1), Jmp(-4), Move(3, 2), jump,
                       LoadBool(3, false, true), LoadBool(3, true, false)]
    ensures Landed(Patched(code9, {4, 1}, 9, 3, 7), {6}) == AbsorbedExitCode()
  {
    var code1 := Patched(code9, {4, 1}, 9, 3, 7);
    assert code1 == [TestSet(3, 0, false), Jmp(7), Test(1, true), Jmp(1), Jmp(2), Move(3, 2), jump,
                     LoadBool(3, false, true), LoadBool(3, true, false)];
  }

  lemma Singleton(code: seq<Instr>, j: nat)
    requires j < |code| && code[j] == Jmp(NO_JUMP)
    ensures IsList(code, j, [j])
  {
    assert LinkAt(code, [j], 0);
  }

  // The code is wrong for a nil a, and for nothing else.
  lemma AbsorbedExitIsWrong(rel: Relation, k: seq<Value>, r: Regs)
    ensures Run(rel, k, AbsorbedExitCode(), 0, r)[3] == Eval(rel, AbsorbedExit(), r) <==> r[0] != Nil
  {
    AbsorbedExitRun(rel, k, r);
    AbsorbedExitValue(rel, r);
  }

  lemma AbsorbedExitRun(rel: Relation, k: seq<Value>, r: Regs)
    ensures Run(rel, k, AbsorbedExitCode(), 0, r)[3] ==
            if IsFalse(r[0]) then r[0] else if IsFalse(r[1]) then Bool(false) else r[2]
  {
    var code := AbsorbedExitCode();
    assert forall q: Regs {:trigger Run(rel, k, code, 9, q)} :: Run(rel, k, code, 9, q) == q;
    var f, v := r[3 := Bool(false)], r[3 := r[2]];
    assert Run(rel, k, code, 7, r) == f;
    assert Run(rel, k, code, 5, r) == v by { assert Run(rel, k, code, 6, v) == v; }
    assert Run(rel, k, code, 4, r) == f;
    assert Run(rel, k, code, 3, r) == v;
    assert Run(rel, k, code, 2, r) == if IsFalse(r[1]) then f else v;
    assert Run(rel, k, code, 1, r[3 := r[0]]) == r[3 := r[0]];
  }

  lemma AbsorbedExitValue(rel: Relation, r: Regs)
    ensures Eval(rel, AbsorbedExit(), r) == if IsFalse(r[0]) || IsFalse(r[1]) then Bool(false) else r[2]
  {
    var a := And(Local(0), Local(1));
    assert Eval(rel, a, r) == if IsFalse(r[0]) then r[0] else r[1];
    assert Eval(rel, Or(a, False), r) == if IsFalse(Eval(rel, a, r)) then Bool(false) else Eval(rel, a, r);
  }

  lemma AbsorbedExitIsNotRight()
    ensures ReadOnce(AbsorbedExit()) && !Right(AbsorbedExit(), false)
  {
    hide Joined, OperandsRight;
    LeavesAnd(Local(0), Local(1), false, End(false), Own);
    hide Paths, Right;
    AbsorbsExit(And(Local(0), Local(1)), Local(2));
  }
}
