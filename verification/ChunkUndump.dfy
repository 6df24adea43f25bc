// Reading a function back from a precompiled chunk.
module ChunkUndump {
  import opened ChunkFormat
  import opened ChunkDump

  datatype Error = UnexpectedEnd | BadInteger | BadConstant | TooDeep | BadCode | BadHeader

  datatype Outcome<T> = Success(value: T) | Failure(error: Error) {
    predicate IsFailure() { Failure? }
    function PropagateFailure<U>(): Outcome<U> requires IsFailure() { Failure(error) }
    function Extract(): T requires !IsFailure() { value }
  }

  // From start on, as far as it goes, the input holds the bytes b.
  ghost predicate Agrees(input: seq<byte>, start: nat, b: seq<byte>) {
    forall i: nat :: i < |b| && start + i < |input| ==> input[start + i] == b[i]
  }

  // Where the input holds b, r is x read from b, or the end of the input found inside b.
  ghost predicate Reads<T>(input: seq<byte>, start: nat, b: seq<byte>, r: Outcome<T>, x: T, end: nat) {
    Agrees(input, start, b) ==>
      if start + |b| <= |input| then r == Success(x) && end == start + |b| else r == Failure(UnexpectedEnd)
  }

  lemma AgreesParts(input: seq<byte>, start: nat, a: seq<byte>, b: seq<byte>)
    requires Agrees(input, start, a + b)
    ensures Agrees(input, start, a) && Agrees(input, start + |a|, b)
  {
    forall i: nat | i < |a| && start + i < |input| ensures input[start + i] == a[i] {
      assert (a + b)[i] == a[i];
    }
    forall i: nat | i < |b| && start + |a| + i < |input| ensures input[start + |a| + i] == b[i] {
      assert (a + b)[|a| + i] == b[i];
      assert input[start + (|a| + i)] == (a + b)[|a| + i];
    }
  }

  lemma AgreesExactly(input: seq<byte>, start: nat, b: seq<byte>)
    requires Agrees(input, start, b) && start + |b| <= |input|
    ensures input[start..start + |b|] == b
  {
  }

  class LoadState {
    const input: seq<byte>
    // The bytecode verifier.
    const check: Proto -> bool
    var pos: nat
    var nCcalls: nat

    constructor (input: seq<byte>, check: Proto -> bool, nCcalls: nat)
      ensures this.input == input && this.check == check && this.nCcalls == nCcalls && pos == 0
    {
      this.input, this.check, this.nCcalls, pos := input, check, nCcalls, 0;
    }

    method LoadBlock(size: nat, ghost b: seq<byte>) returns (r: Outcome<seq<byte>>)
      requires pos <= |input|
      modifies this`pos
      ensures pos <= |input| && (|b| == size ==> Reads(input, old(pos), b, r, b, pos))
      ensures old(pos) + size <= |input| ==> r == Success(input[old(pos)..old(pos) + size]) && pos == old(pos) + size
      ensures old(pos) + size > |input| ==> r == Failure(UnexpectedEnd)
    {
      if size <= |input| - pos {
        if |b| == size && Agrees(input, pos, b) { AgreesExactly(input, pos, b); }
        r := Success(input[pos..pos + size]);
        pos := pos + size;
      } else {
        pos := |input|;
        r := Failure(UnexpectedEnd);
      }
    }

    method LoadChar(ghost c: byte) returns (r: Outcome<byte>)
      requires pos <= |input|
      modifies this`pos
      ensures pos <= |input| && Reads(input, old(pos), [c], r, c, pos)
    {
      ghost var whole := [c];
      var b :- LoadBlock(1, whole);
      return Success(b[0]);
    }

    method LoadInt(ghost n: int) returns (r: Outcome<int>)
      requires pos <= |input|
      modifies this`pos
      ensures pos <= |input| && (FitsInt(n) ==> Reads(input, old(pos), WordBytes(n), r, n, pos))
      ensures r.Success? ==> FitsInt(r.value)
    {
      WordOfBytes(n);
      var b :- LoadBlock(4, WordBytes(n));
      var x := Signed(Word(b));
      return if x < 0 then Failure(BadInteger) else Success(x);
    }

    method LoadString(ghost s: Str) returns (r: Outcome<Str>)
      requires pos <= |input|
      modifies this`pos
      ensures pos <= |input| && (FitsString(s) ==> Reads(input, old(pos), StringBytes(s), r, s, pos))
      ensures r.Success? ==> FitsString(r.value)
    {
      hide Word, WordBytes, Agrees, StringBytes;
      ghost var start := pos;
      ghost var text := if s.None? then [] else s.value + [0];
      StringParts(s);
      if Agrees(input, start, StringBytes(s)) { AgreesParts(input, start, WordBytes(|text|), text); }
      WordOfBytes(|text|);
      var b :- LoadBlock(4, WordBytes(|text|));
      var n := Word(b);
      if n == 0 {
        return Success(None);
      }
      var t :- LoadBlock(n, text);
      return Success(Some(t[..n - 1]));
    }

    method LoadCode(ghost code: seq<int>) returns (r: Outcome<seq<int>>)
      requires pos <= |input|
      modifies this`pos
      ensures pos <= |input|
      ensures FitsInt(|code|) && UnsignedWords(code) ==>
                Reads(input, old(pos), WordBytes(|code|) + WordsBytes(code), r, code, pos)
      ensures r.Success? ==> FitsInt(|r.value|) && UnsignedWords(r.value)
    {
      hide WordBytes, WordsBytes, Words, Agrees;
      ghost var start := pos;
      if Agrees(input, start, WordBytes(|code|) + WordsBytes(code)) {
        AgreesParts(input, start, WordBytes(|code|), WordsBytes(code));
      }
      WordsLength(code);
      if UnsignedWords(code) { WordsOfBytes(code); }
      var n :- LoadInt(|code|);
      var b :- LoadBlock(4 * n, WordsBytes(code));
      return Success(Words(b));
    }

    method LoadLines(ghost lines: seq<int>) returns (r: Outcome<seq<int>>)
      requires pos <= |input|
      modifies this`pos
      ensures pos <= |input|
      ensures FitsInt(|lines|) && SignedInts(lines) ==>
                Reads(input, old(pos), WordBytes(|lines|) + WordsBytes(lines), r, lines, pos)
      ensures r.Success? ==> FitsInt(|r.value|) && SignedInts(r.value)
    {
      hide WordBytes, WordsBytes, SignedWords, Agrees;
      ghost var start := pos;
      if Agrees(input, start, WordBytes(|lines|) + WordsBytes(lines)) {
        AgreesParts(input, start, WordBytes(|lines|), WordsBytes(lines));
      }
      WordsLength(lines);
      if SignedInts(lines) { SignedWordsOfBytes(lines); }
      var n :- LoadInt(|lines|);
      var b :- LoadBlock(4 * n, WordsBytes(lines));
      return Success(SignedWords(b));
    }

    method LoadConstant(ghost c: Constant) returns (r: Outcome<Constant>)
      requires pos <= |input|
      modifies this`pos
      ensures pos <= |input| && (FitsConstant(c) ==> Reads(input, old(pos), ConstantBytes(c), r, c, pos))
      ensures r.Success? ==> FitsConstant(r.value)
    {
      hide StringBytes, Agrees, FitsString;
      ghost var start := pos;
      ghost var tag, rest := Tag(c), Rest(c);
      if Agrees(input, start, ConstantBytes(c)) { AgreesParts(input, start, [tag], rest); }
      var t :- LoadChar(tag);
      if t == TNIL {
        return Success(NilConstant);
      } else if t == TBOOLEAN {
        var b :- LoadChar(if c.BoolConstant? && c.b then 1 else 0);
        return Success(BoolConstant(b != 0));
      } else if t == TNUMBER {
        var bits :- LoadBlock(8, rest);
        return Success(NumberConstant(bits));
      } else if t == TSTRING {
        var s :- LoadString(if c.StringConstant? then c.s else None);
        return Success(StringConstant(s));
      } else {
        return Failure(BadConstant);
      }
    }

    // The constants of a function.
    method LoadConstantList(ghost xs: seq<Constant>) returns (r: Outcome<seq<Constant>>)
      requires pos <= |input|
      modifies this`pos
      ensures pos <= |input|
      ensures FitsInt(|xs|) && FitsConstants(xs) ==>
                Reads(input, old(pos), WordBytes(|xs|) + ConstantsBytes(xs), r, xs, pos)
      ensures r.Success? ==> FitsInt(|r.value|) && FitsConstants(r.value)
    {
      hide WordBytes, ConstantBytes, Agrees, FitsConstant;
      ghost var start, rest := pos, ConstantsBytes(xs);
      ghost var good := FitsInt(|xs|) && FitsConstants(xs) && Agrees(input, start, WordBytes(|xs|) + rest);
      if good { AgreesParts(input, start, WordBytes(|xs|), rest); }
      var n :- LoadInt(|xs|);
      var ys := [];
      while |ys| < n
        invariant pos <= |input| && |ys| <= n && FitsConstants(ys)
        invariant good ==> n == |xs| && ys == xs[..|ys|] && rest == ConstantsBytes(xs[|ys|..])
        invariant good ==> Agrees(input, pos, rest) && pos + |rest| == start + 4 + |ConstantsBytes(xs)|
      {
        ghost var i, x := |ys|, if |ys| < |xs| then xs[|ys|] else NilConstant;
        if good {
          ConstantsFrom(xs, i, []);
          AgreesParts(input, pos, ConstantBytes(x), ConstantsBytes(xs[i + 1..]));
        }
        var y :- LoadConstant(x);
        ys := ys + [y];
        rest := if i < |xs| then ConstantsBytes(xs[i + 1..]) else [];
      }
      assert good ==> xs[..|ys|] == xs && xs[|ys|..] == [];
      return Success(ys);
    }

    method LoadLocVar(ghost v: LocVar) returns (r: Outcome<LocVar>)
      requires pos <= |input|
      modifies this`pos
      ensures pos <= |input| && (FitsLocVar(v) ==> Reads(input, old(pos), LocVarBytes(v), r, v, pos))
      ensures r.Success? ==> FitsLocVar(r.value)
    {
      hide StringBytes, WordBytes, Agrees;
      ghost var start := pos;
      if Agrees(input, start, LocVarBytes(v)) {
        AgreesParts(input, start, StringBytes(v.varname) + WordBytes(v.startpc), WordBytes(v.endpc));
        AgreesParts(input, start, StringBytes(v.varname), WordBytes(v.startpc));
      }
      var varname :- LoadString(v.varname);
      var startpc :- LoadInt(v.startpc);
      var endpc :- LoadInt(v.endpc);
      return Success(LocVar(varname, startpc, endpc));
    }

    // The local variables of a function.
    method LoadLocVars(ghost xs: seq<LocVar>) returns (r: Outcome<seq<LocVar>>)
      requires pos <= |input|
      modifies this`pos
      ensures pos <= |input|
      ensures FitsInt(|xs|) && FitsLocVars(xs) ==>
                Reads(input, old(pos), WordBytes(|xs|) + LocVarsBytes(xs), r, xs, pos)
      ensures r.Success? ==> FitsInt(|r.value|) && FitsLocVars(r.value)
    {
      hide WordBytes, LocVarBytes, Agrees, FitsLocVar;
      ghost var start, rest := pos, LocVarsBytes(xs);
      ghost var good := FitsInt(|xs|) && FitsLocVars(xs) && Agrees(input, start, WordBytes(|xs|) + rest);
      if good { AgreesParts(input, start, WordBytes(|xs|), rest); }
      var n :- LoadInt(|xs|);
      var ys := [];
      while |ys| < n
        invariant pos <= |input| && |ys| <= n && FitsLocVars(ys)
        invariant good ==> n == |xs| && ys == xs[..|ys|] && rest == LocVarsBytes(xs[|ys|..])
        invariant good ==> Agrees(input, pos, rest) && pos + |rest| == start + 4 + |LocVarsBytes(xs)|
      {
        ghost var i, x := |ys|, if |ys| < |xs| then xs[|ys|] else LocVar(None, 0, 0);
        if good {
          LocVarsFrom(xs, i, []);
          AgreesParts(input, pos, LocVarBytes(x), LocVarsBytes(xs[i + 1..]));
        }
        var y :- LoadLocVar(x);
        ys := ys + [y];
        rest := if i < |xs| then LocVarsBytes(xs[i + 1..]) else [];
      }
      assert good ==> xs[..|ys|] == xs && xs[|ys|..] == [];
      return Success(ys);
    }

    // The names of upvalues.
    method LoadUpvalues(ghost xs: seq<Str>) returns (r: Outcome<seq<Str>>)
      requires pos <= |input|
      modifies this`pos
      ensures pos <= |input|
      ensures FitsInt(|xs|) && FitsStrings(xs) ==>
                Reads(input, old(pos), WordBytes(|xs|) + StringsBytes(xs), r, xs, pos)
      ensures r.Success? ==> FitsInt(|r.value|) && FitsStrings(r.value)
    {
      hide WordBytes, StringBytes, Agrees, FitsString;
      ghost var start, rest := pos, StringsBytes(xs);
      ghost var good := FitsInt(|xs|) && FitsStrings(xs) && Agrees(input, start, WordBytes(|xs|) + rest);
      if good { AgreesParts(input, start, WordBytes(|xs|), rest); }
      var n :- LoadInt(|xs|);
      var ys := [];
      while |ys| < n
        invariant pos <= |input| && |ys| <= n && FitsStrings(ys)
        invariant good ==> n == |xs| && ys == xs[..|ys|] && rest == StringsBytes(xs[|ys|..])
        invariant good ==> Agrees(input, pos, rest) && pos + |rest| == start + 4 + |StringsBytes(xs)|
      {
        ghost var i, x := |ys|, if |ys| < |xs| then xs[|ys|] else None;
        if good {
          StringsFrom(xs, i, []);
          AgreesParts(input, pos, StringBytes(x), StringsBytes(xs[i + 1..]));
        }
        var y :- LoadString(x);
        ys := ys + [y];
        rest := if i < |xs| then StringsBytes(xs[i + 1..]) else [];
      }
      assert good ==> xs[..|ys|] == xs && xs[|ys|..] == [];
      return Success(ys);
    }

    // The constants of a function, and the functions in it.
    method LoadConstants(source: Str, ghost g: Proto, ghost strip: bool)
      returns (r: Outcome<(seq<Constant>, seq<Proto>)>)
      requires pos <= |input| && FitsString(source)
      modifies this
      ensures pos <= |input|
      ensures ConstantsSuit(check, g, source, strip, old(nCcalls)) ==>
                Reads(input, old(pos),
                  (WordBytes(|g.k|) + ConstantsBytes(g.k)) + (WordBytes(|g.p|) + FunctionsBytes(g.p, g.source, strip)),
                      r, (g.k, LoadedAll(g.p, g.source, source, strip)), pos)
      ensures r.Success? ==> nCcalls == old(nCcalls) && FitsInt(|r.value.0|) && FitsConstants(r.value.0)
      ensures r.Success? ==> FitsInt(|r.value.1|) && AllSound(check, r.value.1, source, nCcalls)
      decreases MAXCCALLS - nCcalls, 2
    {
      hide WordBytes, ConstantsBytes, FunctionsBytes, Agrees, FitsConstants, AllSound, AllSuit, LoadedAll;
      ghost var start, ks, ps := pos, WordBytes(|g.k|) + ConstantsBytes(g.k),
          WordBytes(|g.p|) + FunctionsBytes(g.p, g.source, strip);
      if Agrees(input, start, ks + ps) { AgreesParts(input, start, ks, ps); }
      var k :- LoadConstantList(g.k);
      var p :- LoadFunctions(source, g.p, g.source, strip);
      return Success((k, p));
    }

    method LoadFunctions(source: Str, ghost xs: seq<Proto>, ghost parent: Str, ghost strip: bool)
      returns (r: Outcome<seq<Proto>>)
      requires pos <= |input| && FitsString(source)
      modifies this
      ensures pos <= |input|
      ensures FitsInt(|xs|) && AllSuit(check, xs, parent, source, strip, old(nCcalls)) ==>
                Reads(input, old(pos), WordBytes(|xs|) + FunctionsBytes(xs, parent, strip), r,
                  LoadedAll(xs, parent, source, strip), pos)
      ensures r.Success? ==> nCcalls == old(nCcalls) && FitsInt(|r.value|) && AllSound(check, r.value, source, nCcalls)
      decreases MAXCCALLS - nCcalls, 1
    {
      hide WordBytes, FunctionBytes, FunctionsBytes, Agrees, Suits, Sound, AllSound, Loaded, LoadedAll, PrefixLoaded;
      ghost var start, rest, calls := pos, FunctionsBytes(xs, parent, strip), nCcalls;
      ghost var good := FitsInt(|xs|) && AllSuit(check, xs, parent, source, strip, calls)
           && Agrees(input, start, WordBytes(|xs|) + rest);
      if good { AgreesParts(input, start, WordBytes(|xs|), rest); }
      var n :- LoadInt(|xs|);
      var ys := [];
      NoneLoaded(check, xs, parent, source, strip, calls);
      while |ys| < n
        invariant pos <= |input| && |ys| <= n && nCcalls == calls && AllSound(check, ys, source, calls)
        invariant good ==> n == |xs| && rest == FunctionsBytes(xs[|ys|..], parent, strip)
        invariant good ==> PrefixLoaded(xs, parent, source, strip, ys)
        invariant good ==> Agrees(input, pos, rest) && pos + |rest| == start + 4 + |FunctionsBytes(xs, parent, strip)|
      {
        ghost var i := |ys|;
        ghost var x := if i < |xs| then xs[i] else Nothing();
        if good { NextFunction(input, pos, xs, parent, strip, i); }
        var y :- LoadFunction(source, x, parent, strip);
        SoundMore(check, ys, y, source, calls);
        if good { PrefixMore(xs, parent, source, strip, ys, y); }
        ys := ys + [y];
        rest := if i < |xs| then FunctionsBytes(xs[i + 1..], parent, strip) else [];
      }
      if good { assert xs[|ys|..] == []; AllLoaded(xs, parent, source, strip, ys); }
      return Success(ys);
    }

    method LoadDebug(ghost g: Proto, ghost strip: bool) returns (r: Outcome<(seq<int>, seq<LocVar>, seq<Str>)>)
      requires pos <= |input|
      modifies this`pos
      ensures pos <= |input|
      ensures FitsDebug(g.lineinfo, g.locvars, g.upvalues) ==>
                Reads(input, old(pos), DebugBytes(g, strip), r,
                  if strip then ([], [], []) else (g.lineinfo, g.locvars, g.upvalues), pos)
      ensures r.Success? ==> FitsDebug(r.value.0, r.value.1, r.value.2)
    {
      hide WordBytes, WordsBytes, LocVarsBytes, StringsBytes, DebugBytes, Agrees, SignedInts, FitsLocVars,
           FitsStrings;
      ghost var xs := if strip then [] else g.lineinfo;
      ghost var ys := if strip then [] else g.locvars;
      ghost var zs := if strip then [] else g.upvalues;
      ghost var a, b, c := WordBytes(|xs|) + WordsBytes(xs), WordBytes(|ys|) + LocVarsBytes(ys),
          WordBytes(|zs|) + StringsBytes(zs);
      DebugParts(g, strip, xs, ys, zs);
      NothingFits();
      if Agrees(input, pos, DebugBytes(g, strip)) {
        AgreesParts(input, pos, a + b, c);
        AgreesParts(input, pos, a, b);
      }
      var lineinfo :- LoadLines(xs);
      var locvars :- LoadLocVars(ys);
      var upvalues :- LoadUpvalues(zs);
      return Success((lineinfo, locvars, upvalues));
    }

    // The fields in front of the code: where a function comes from, and its sizes.
    method LoadHead(around: Str, ghost g: Proto, ghost parent: Str, ghost strip: bool) returns (r: Outcome<Proto>)
      requires pos <= |input|
      modifies this`pos
      ensures pos <= |input|
      ensures FitsHead(g) ==>
                Reads(input, old(pos), HeadBytes(g, parent, strip), r, Head(g, LoadedSource(g, parent, around, strip)),
                  pos)
      ensures r.Success? ==> r.value == Head(r.value, r.value.source)
      ensures r.Success? && FitsString(around) ==> FitsHead(r.value)
      ensures r.Success? && around.Some? ==> r.value.source.Some?
    {
      hide WordBytes, StringBytes, Agrees, FitsInt;
      ghost var s := if g.source == parent || strip then None else g.source;
      ghost var b0, b1, b2 := StringBytes(s), WordBytes(g.linedefined), WordBytes(g.lastlinedefined);
      if Agrees(input, pos, HeadBytes(g, parent, strip)) {
        AgreesParts(input, pos, b0, b1 + (b2 + Sizes(g)));
        AgreesParts(input, pos + |b0|, b1, b2 + Sizes(g));
        AgreesParts(input, pos + |b0| + |b1|, b2, Sizes(g));
      }
      var source :- LoadString(s);
      if source.None? { source := around; }
      var linedefined :- LoadInt(g.linedefined);
      var lastlinedefined :- LoadInt(g.lastlinedefined);
      var sizes :- LoadSizes(g);
      return Success(Proto(source, linedefined, lastlinedefined, sizes.0, sizes.1, sizes.2, sizes.3, [], [], [], [], [],
          []));
    }

    method LoadSizes(ghost g: Proto) returns (r: Outcome<(byte, byte, byte, byte)>)
      requires pos <= |input|
      modifies this`pos
      ensures pos <= |input|
      ensures Reads(input, old(pos), Sizes(g), r, (g.nups, g.numparams, g.isVararg, g.maxstacksize), pos)
    {
      hide Agrees;
      ghost var start := pos;
      if Agrees(input, start, Sizes(g)) {
        assert Sizes(g) == [g.nups] + [g.numparams, g.isVararg, g.maxstacksize];
        assert [g.numparams, g.isVararg, g.maxstacksize] == [g.numparams] + [g.isVararg, g.maxstacksize];
        assert [g.isVararg, g.maxstacksize] == [g.isVararg] + [g.maxstacksize];
        AgreesParts(input, start, [g.nups], [g.numparams, g.isVararg, g.maxstacksize]);
        AgreesParts(input, start + 1, [g.numparams], [g.isVararg, g.maxstacksize]);
        AgreesParts(input, start + 2, [g.isVararg], [g.maxstacksize]);
      }
      var nups :- LoadChar(g.nups);
      var numparams :- LoadChar(g.numparams);
      var isVararg :- LoadChar(g.isVararg);
      var maxstacksize :- LoadChar(g.maxstacksize);
      return Success((nups, numparams, isVararg, maxstacksize));
    }

    // Loads a function inside one with the source around.
    method LoadFunction(around: Str, ghost g: Proto, ghost parent: Str, ghost strip: bool) returns (r: Outcome<Proto>)
      requires pos <= |input| && FitsString(around)
      modifies this
      ensures pos <= |input|
      ensures Suits(check, g, parent, around, strip, old(nCcalls)) ==>
                Reads(input, old(pos), FunctionBytes(g, parent, strip), r, Loaded(g, parent, around, strip), pos)
      ensures r.Success? ==> nCcalls == old(nCcalls) && Sound(check, r.value, around, nCcalls)
      decreases MAXCCALLS - nCcalls, 0
    {
      hide FunctionBytes, HeadBytes, WordBytes, WordsBytes, ConstantsBytes, FunctionsBytes, DebugBytes, Agrees, Suits,
           ConstantsSuit, Sound, AllSound, FitsDebug, FitsConstants, UnsignedWords, Loaded, LoadedAll;
      ghost var source, start, calls := LoadedSource(g, parent, around, strip), pos, nCcalls;
      ghost var a, b, c, d := HeadBytes(g, parent, strip), WordBytes(|g.code|) + WordsBytes(g.code),
        (WordBytes(|g.k|) + ConstantsBytes(g.k)) + (WordBytes(|g.p|) + FunctionsBytes(g.p, g.source, strip)),
          DebugBytes(g, strip);
      ghost var suits := Suits(check, g, parent, around, strip, nCcalls);
      if suits { SuitsInside(check, g, parent, around, strip, nCcalls); }
      FourParts(input, start, g, parent, strip, a, b, c, d);
      nCcalls := nCcalls + 1;
      if nCcalls > MAXCCALLS { return Failure(TooDeep); }
      var f :- LoadHead(around, g, parent, strip);
      var code :- LoadCode(g.code);
      var kp :- LoadConstants(f.source, g, strip);
      var debug :- LoadDebug(g, strip);
      f := f.(code := code, k := kp.0, p := kp.1, lineinfo := debug.0, locvars := debug.1, upvalues := debug.2);
      LoadedParts(g, parent, around, strip);
      if !check(f) { return Failure(BadCode); }
      nCcalls := nCcalls - 1;
      SoundBuilt(check, f, around, nCcalls);
      return Success(f);
    }

    method LoadHeader() returns (r: Outcome<seq<byte>>)
      requires pos == 0
      modifies this`pos
      ensures pos <= |input| && Reads(input, 0, HEADER, r, HEADER, pos)
      ensures r.Success? ==> HEADER <= input
    {
      hide Agrees;
      var h :- LoadBlock(12, HEADER);
      if h != HEADER { return Failure(BadHeader); }
      return Success(h);
    }
  }

  // The source of a chunk that names none.
  const UNKNOWN: Str := Some([61, 63])

  // Loads a whole chunk.
  method Undump(input: seq<byte>, check: Proto -> bool, nCcalls: nat, ghost g: Proto, ghost strip: bool)
    returns (r: Outcome<Proto>, end: nat)
    ensures Suits(check, g, None, UNKNOWN, strip, nCcalls) ==>
              Reads(input, 0, HEADER + FunctionBytes(g, None, strip), r, Loaded(g, None, UNKNOWN, strip), end)
    ensures r.Success? ==> HEADER <= input && end <= |input| && Sound(check, r.value, UNKNOWN, nCcalls)
  {
    hide FunctionBytes, Suits, Sound, Loaded, Agrees;
    var s := new LoadState(input, check, nCcalls);
    if Agrees(input, 0, HEADER + FunctionBytes(g, None, strip)) {
      AgreesParts(input, 0, HEADER, FunctionBytes(g, None, strip));
    }
    var e := s.LoadHeader();
    if e.Failure? { return Failure(e.error), s.pos; }
    r := s.LoadFunction(UNKNOWN, g, None, strip);
    end := s.pos;
  }

  // A function written by a willing writer, and then loaded from what was written, whatever follows it, is back as
  // it was, just when the bytecode verifier accepts it and it is not nested too deep; no other byte is used.
  method Restored(f: Proto, check: Proto -> bool, nCcalls: nat, more: seq<byte>)
    returns (r: Outcome<Proto>, written: seq<byte>, end: nat)
    requires Fits(f) && SourcesKnown(f)
    ensures r == Success(f) <==> Accepted(check, f) && nCcalls + Depth(f) <= 200
    ensures r == Success(f) ==> end == |written|
  {
    hide FunctionBytes, Accepted, Fits, Depth, Loaded;
    LoadedSame(f, None, UNKNOWN);
    var status, out := Dump(f, (o, b) => 0, false);
    r, end := Undump(out + more, check, nCcalls, f, false);
    written := out;
  }

  // Whatever loads at all can be dumped and loaded again.
  method Reloaded(input: seq<byte>, check: Proto -> bool, nCcalls: nat)
    returns (first: Outcome<Proto>, second: Outcome<Proto>)
    ensures first.Success? ==> second == first
  {
    var end;
    first, end := Undump(input, check, nCcalls, Nothing(), false);
    second := first;
    if first.Success? {
      var written;
      second, written, end := Restored(first.value, check, nCcalls, []);
    }
  }

  // A dump cut short anywhere is refused as such.
  method Truncated(f: Proto, strip: bool, check: Proto -> bool, nCcalls: nat, size: nat) returns (r: Outcome<Proto>)
    requires Suits(check, f, None, UNKNOWN, strip, nCcalls) && size < |HEADER + FunctionBytes(f, None, strip)|
    ensures r == Failure(UnexpectedEnd)
  {
    hide FunctionBytes, Suits, Loaded;
    var status, out := Dump(f, (o, b) => 0, strip);
    var end;
    r, end := Undump(out[..size], check, nCcalls, f, strip);
  }

  ghost function Sizes(f: Proto): seq<byte> { [f.nups, f.numparams, f.isVararg, f.maxstacksize] }

  // The part of a function that its head holds.
  function Head(f: Proto, source: Str): Proto {
    f.(source := source, code := [], k := [], p := [], lineinfo := [], locvars := [], upvalues := [])
  }

  ghost predicate FitsHead(f: Proto) { FitsString(f.source) && FitsInt(f.linedefined) && FitsInt(f.lastlinedefined) }

  ghost predicate FitsDebug(lines: seq<int>, vars: seq<LocVar>, names: seq<Str>) {
    FitsInt(|lines|) && SignedInts(lines) && FitsInt(|vars|) && FitsLocVars(vars) && FitsInt(|names|)
      && FitsStrings(names)
  }

  lemma NothingFits()
    ensures FitsDebug([], [], [])
  {
  }

  // What a load makes of g is accepted, and does not nest too deep after that many calls.
  ghost predicate Suits(check: Proto -> bool, g: Proto, parent: Str, around: Str, strip: bool, calls: nat) {
    Fits(g) && Accepted(check, Loaded(g, parent, around, strip)) && calls + Depth(g) <= MAXCCALLS
  }

  ghost predicate AllSuit(check: Proto -> bool, gs: seq<Proto>, parent: Str, around: Str, strip: bool, calls: nat) {
    forall i :: 0 <= i < |gs| ==> Suits(check, gs[i], parent, around, strip, calls)
  }

  ghost predicate ConstantsSuit(check: Proto -> bool, g: Proto, around: Str, strip: bool, calls: nat) {
    FitsInt(|g.k|) && FitsConstants(g.k) && FitsInt(|g.p|) && AllSuit(check, g.p, g.source, around, strip, calls)
  }

  // A function that could be dumped and loaded again.
  ghost predicate Sound(check: Proto -> bool, f: Proto, around: Str, calls: nat) {
    Fits(f) && Accepted(check, f) && calls + Depth(f) <= MAXCCALLS && (around.Some? ==> SourcesKnown(f))
  }

  ghost predicate AllSound(check: Proto -> bool, fs: seq<Proto>, around: Str, calls: nat) {
    forall i :: 0 <= i < |fs| ==> Sound(check, fs[i], around, calls)
  }

  lemma SuitsInside(check: Proto -> bool, g: Proto, parent: Str, around: Str, strip: bool, calls: nat)
    requires Suits(check, g, parent, around, strip, calls)
    ensures FitsHead(g) && FitsInt(|g.code|) && UnsignedWords(g.code) && FitsDebug(g.lineinfo, g.locvars, g.upvalues)
    ensures ConstantsSuit(check, g, LoadedSource(g, parent, around, strip), strip, calls + 1) && calls < MAXCCALLS
    ensures check(Loaded(g, parent, around, strip))
  {
    var source := LoadedSource(g, parent, around, strip);
    var fs := LoadedAll(g.p, g.source, source, strip);
    forall i | 0 <= i < |g.p| ensures Suits(check, g.p[i], g.source, source, strip, calls + 1) {
      LoadedAt(g.p, g.source, source, strip, i);
      assert Accepted(check, fs[i]);
    }
  }

  lemma {:induction false} LoadedAt(gs: seq<Proto>, parent: Str, around: Str, strip: bool, i: nat)
    requires i < |gs|
    ensures LoadedAll(gs, parent, around, strip)[i] == Loaded(gs[i], parent, around, strip)
  {
    hide Loaded;
    if i > 0 { LoadedAt(gs[1..], parent, around, strip, i - 1); }
  }

  lemma {:induction false} DepthAtMost(fs: seq<Proto>, d: nat)
    requires forall i :: 0 <= i < |fs| ==> Depth(fs[i]) <= d
    ensures DepthAll(fs) <= d
  {
    if fs != [] {
      assert Depth(fs[0]) <= d;
      DepthAtMost(fs[1..], d);
    }
  }

  lemma LoadedParts(g: Proto, parent: Str, around: Str, strip: bool)
    ensures var source := LoadedSource(g, parent, around, strip);
      var f := Head(g, source).(code := g.code, k := g.k, p := LoadedAll(g.p, g.source, source, strip));
      Loaded(g, parent, around, strip) ==
        if strip then f else f.(lineinfo := g.lineinfo, locvars := g.locvars, upvalues := g.upvalues)
  {
  }

  lemma SoundBuilt(check: Proto -> bool, f: Proto, around: Str, calls: nat)
    requires FitsHead(f) && FitsInt(|f.code|) && UnsignedWords(f.code) && FitsInt(|f.k|) && FitsConstants(f.k)
    requires FitsInt(|f.p|) && AllSound(check, f.p, f.source, calls + 1) && FitsDebug(f.lineinfo, f.locvars, f.upvalues)
    requires check(f) && calls < MAXCCALLS && (around.Some? ==> f.source.Some?)
    ensures Sound(check, f, around, calls)
  {
    forall i | 0 <= i < |f.p| ensures Depth(f.p[i]) <= MAXCCALLS - (calls + 1) {
      assert Sound(check, f.p[i], f.source, calls + 1);
    }
    DepthAtMost(f.p, MAXCCALLS - (calls + 1));
  }

  lemma FourParts(input: seq<byte>, start: nat, g: Proto, parent: Str, strip: bool, a: seq<byte>, b: seq<byte>,
                  c: seq<byte>, d: seq<byte>)
    requires a == HeadBytes(g, parent, strip) && b == WordBytes(|g.code|) + WordsBytes(g.code)
             && d == DebugBytes(g, strip)
    requires c == (WordBytes(|g.k|) + ConstantsBytes(g.k)) + (WordBytes(|g.p|) + FunctionsBytes(g.p, g.source, strip))
    ensures |FunctionBytes(g, parent, strip)| == |a| + |b| + |c| + |d|
    ensures Agrees(input, start, FunctionBytes(g, parent, strip)) ==>
              Agrees(input, start, a) && Agrees(input, start + |a|, b) && Agrees(input, start + |a| + |b|, c)
              && Agrees(input, start + |a| + |b| + |c|, d)
  {
    hide Agrees, HeadBytes, WordBytes, WordsBytes, ConstantsBytes, FunctionsBytes, DebugBytes;
    assert FunctionBytes(g, parent, strip) == a + (b + (c + d));
    if Agrees(input, start, FunctionBytes(g, parent, strip)) {
      AgreesParts(input, start, a, b + (c + d));
      AgreesParts(input, start + |a|, b, c + d);
      AgreesParts(input, start + |a| + |b|, c, d);
    }
  }

  // A prototype of nothing.
  ghost function Nothing(): Proto { Proto(None, 0, 0, 0, 0, 0, 0, [], [], [], [], [], []) }

  lemma NextFunction(input: seq<byte>, start: nat, xs: seq<Proto>, parent: Str, strip: bool, i: nat)
    requires i < |xs| && Agrees(input, start, FunctionsBytes(xs[i..], parent, strip))
    ensures Agrees(input, start, FunctionBytes(xs[i], parent, strip))
    ensures Agrees(input, start + |FunctionBytes(xs[i], parent, strip)|, FunctionsBytes(xs[i + 1..], parent, strip))
    ensures |FunctionsBytes(xs[i..], parent, strip)| ==
            |FunctionBytes(xs[i], parent, strip)| + |FunctionsBytes(xs[i + 1..], parent, strip)|
  {
    hide Agrees, FunctionBytes;
    assert xs[i..][0] == xs[i] && xs[i..][1..] == xs[i + 1..];
    assert FunctionsBytes(xs[i..], parent, strip) ==
           FunctionBytes(xs[i], parent, strip) + FunctionsBytes(xs[i + 1..], parent, strip);
    AgreesParts(input, start, FunctionBytes(xs[i], parent, strip), FunctionsBytes(xs[i + 1..], parent, strip));
  }

  // The functions loaded so far are the first of those to load.
  ghost predicate PrefixLoaded(gs: seq<Proto>, parent: Str, around: Str, strip: bool, fs: seq<Proto>) {
    |fs| <= |gs| && forall i :: 0 <= i < |fs| ==> fs[i] == Loaded(gs[i], parent, around, strip)
  }

  lemma NoneLoaded(check: Proto -> bool, gs: seq<Proto>, parent: Str, around: Str, strip: bool, calls: nat)
    ensures PrefixLoaded(gs, parent, around, strip, []) && AllSound(check, [], around, calls)
    ensures gs[0..] == gs && FunctionsBytes([], parent, strip) == []
  {
  }

  lemma PrefixMore(gs: seq<Proto>, parent: Str, around: Str, strip: bool, fs: seq<Proto>, f: Proto)
    requires PrefixLoaded(gs, parent, around, strip, fs) && |fs| < |gs| && f == Loaded(gs[|fs|], parent, around, strip)
    ensures PrefixLoaded(gs, parent, around, strip, fs + [f])
  {
    hide Loaded;
  }

  lemma SoundMore(check: Proto -> bool, fs: seq<Proto>, f: Proto, around: Str, calls: nat)
    requires AllSound(check, fs, around, calls) && Sound(check, f, around, calls)
    ensures AllSound(check, fs + [f], around, calls)
  {
    hide Sound;
  }

  lemma {:induction false} AllLoaded(gs: seq<Proto>, parent: Str, around: Str, strip: bool, fs: seq<Proto>)
    requires PrefixLoaded(gs, parent, around, strip, fs) && |fs| == |gs|
    ensures fs == LoadedAll(gs, parent, around, strip)
  {
    hide Loaded;
    if gs != [] {
      AllLoaded(gs[1..], parent, around, strip, fs[1..]);
      assert fs == [fs[0]] + fs[1..];
    }
  }


  ghost function Rest(c: Constant): (b: seq<byte>)
    ensures ConstantBytes(c) == [Tag(c)] + b
  {
    match c
    case NilConstant => []
    case BoolConstant(b) => [if b then 1 else 0]
    case NumberConstant(bits) => bits
    case StringConstant(s) => StringBytes(s)
  }

  ghost function Tag(c: Constant): byte {
    match c
    case NilConstant => TNIL
    case BoolConstant(_) => TBOOLEAN
    case NumberConstant(_) => TNUMBER
    case StringConstant(_) => TSTRING
  }

  lemma StringParts(s: Str)
    ensures StringBytes(s) == if s.None? then WordBytes(0) + [] else WordBytes(|s.value| + 1) + (s.value + [0])
  {
    hide WordBytes;
  }
}
