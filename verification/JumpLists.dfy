// Lists of pending jumps, threaded through the jump instructions themselves:
// the offset of a pending jump leads to the next jump of its list.
module JumpLists {
  import opened LuaValues
  import opened Bytecode
  import opened ExprMeaning

  ghost function ToSet(xs: seq<nat>): set<nat> {
    set x | x in xs
  }

  // The jump after pc in its list; an offset that points at itself ends the list.
  function JumpLink(code: seq<Instr>, pc: nat): int
    requires pc < |code| && code[pc].Jmp?
  {
    if code[pc].sbx == NO_JUMP then NO_JUMP else pc + 1 + code[pc].sbx
  }

  ghost predicate LinkAt(code: seq<Instr>, xs: seq<nat>, i: nat)
    requires i < |xs|
  {
    && xs[i] < |code| && code[xs[i]].Jmp?
    && JumpLink(code, xs[i]) == if i + 1 < |xs| then xs[i + 1] else NO_JUMP
  }

  ghost predicate IsList(code: seq<Instr>, l: int, xs: seq<nat>) {
    && l == (if xs == [] then NO_JUMP else xs[0])
    && (forall i {:trigger LinkAt(code, xs, i)} | 0 <= i < |xs| :: LinkAt(code, xs, i))
    && (forall i, j | 0 <= i < j < |xs| :: xs[i] != xs[j])
  }

  lemma EmptyList(code: seq<Instr>)
    ensures IsList(code, NO_JUMP, [])
  {
  }

  lemma ListMembers(code: seq<Instr>, l: int, xs: seq<nat>)
    requires IsList(code, l, xs)
    ensures forall j | j in xs :: j < |code| && code[j].Jmp?
  {
    forall j | j in xs ensures j < |code| && code[j].Jmp? {
      var i :| 0 <= i < |xs| && xs[i] == j;
      assert LinkAt(code, xs, i);
    }
  }

  lemma ListHead(code: seq<Instr>, l: int, xs: seq<nat>)
    requires IsList(code, l, xs)
    ensures l == if xs == [] then NO_JUMP else xs[0]
  {
  }

  lemma ListFrame(code: seq<Instr>, code': seq<Instr>, l: int, xs: seq<nat>)
    requires IsList(code, l, xs)
    requires forall j | j in xs :: j < |code'| && (j < |code| ==> code'[j] == code[j])
    ensures IsList(code', l, xs)
  {
    forall i | 0 <= i < |xs| ensures LinkAt(code', xs, i) { assert LinkAt(code, xs, i) && xs[i] in xs; }
  }

  // Redirecting the last jump of one list to the head of another appends it.
  lemma ListAppend(code: seq<Instr>, l: int, xs: seq<nat>, l2: int, ys: seq<nat>)
    requires IsList(code, l, xs) && IsList(code, l2, ys) && xs != [] && ys != []
    requires ToSet(xs) !! ToSet(ys)
    ensures var last := xs[|xs| - 1];
            last < |code| && IsList(code[last := Jmp(l2 - (last + 1))], l, xs + ys)
  {
    var last := xs[|xs| - 1];
    assert LinkAt(code, xs, |xs| - 1);
    var code' := code[last := Jmp(l2 - (last + 1))];
    var zs := xs + ys;
    assert last in ToSet(xs);
    forall i | 0 <= i < |zs| ensures LinkAt(code', zs, i) {
      if i < |xs| {
        assert LinkAt(code, xs, i);
        assert ys[0] in ToSet(ys);
      } else {
        assert LinkAt(code, ys, i - |xs|) && ys[i - |xs|] in ToSet(ys);
      }
    }
    forall i, j | 0 <= i < j < |zs| ensures zs[i] != zs[j] {
      if i < |xs| <= j { assert zs[i] in ToSet(xs) && ys[j - |xs|] in ToSet(ys); }
    }
  }

  lemma LandedList(code: seq<Instr>, jl: set<nat>, tail: seq<Instr>, l: int, xs: seq<nat>)
    requires IsList(code, l, xs) && ToSet(xs) !! jl
    ensures IsList(Landed(code, jl) + tail, l, xs)
  {
    ListMembers(code, l, xs);
    forall j | j in xs ensures Landed(code, jl)[j] == code[j] { assert j in ToSet(xs); }
    ListFrame(code, Landed(code, jl) + tail, l, xs);
  }

  lemma RelinkedList(code: seq<Instr>, code': seq<Instr>, changed: set<nat>, l: int, xs: seq<nat>)
    requires IsList(code, l, xs) && Relinked(code, code', changed) && ToSet(xs) !! changed
    ensures IsList(code', l, xs)
  {
    forall j | j in xs ensures j < |code'| && (j < |code| ==> code'[j] == code[j]) {
      assert j in ToSet(xs);
      ListMembers(code, l, xs);
    }
    ListFrame(code, code', l, xs);
  }

  lemma ToSetHead(xs: seq<nat>)
    ensures xs != [] ==> xs[0] in ToSet(xs)
  {
  }

  lemma ToSetAppend(xs: seq<nat>, ys: seq<nat>)
    ensures ToSet(xs + ys) == ToSet(xs) + ToSet(ys)
  {
  }
}
