// The bytes of dumped chunks, written out.
module ChunkLaws {
  import opened ChunkFormat
  import opened ChunkDump
  import opened ChunkUndump

  lemma DividesOnce(n: int, q: int, r: int)
    requires n == 256 * q + r && 0 <= r < 256
    ensures n / 256 == q && n % 256 == r
  {
  }

  lemma WordOf(n: int, b: seq<byte>)
    requires |b| == 4 && n == b[0] as int + 256 * b[1] as int + 65536 * b[2] as int + 16777216 * b[3] as int
    ensures WordBytes(n) == b
  {
    var q1: int := b[1] as int + 256 * b[2] as int + 65536 * b[3] as int;
    var q2: int := b[2] as int + 256 * b[3] as int;
    DividesOnce(n, q1, b[0]);
    DividesOnce(q1, q2, b[1]);
    DividesOnce(q2, b[3], b[2]);
    assert n % WORD == n && n / 0x1_0000 == q1 / 0x100 && n / 0x100_0000 == q2 / 0x100;
  }

  lemma SmallWord(n: nat)
    requires n < 256
    ensures WordBytes(n) == [n, 0, 0, 0]
  {
    WordOf(n, [n, 0, 0, 0]);
  }

  // The parts of a dumped function in one row.
  lemma Row(f: Proto, parent: Str, strip: bool, a: seq<byte>, code: seq<byte>, k: seq<byte>, p: seq<byte>,
            lines: seq<byte>, vars: seq<byte>, names: seq<byte>)
    requires a == StringBytes(if f.source == parent || strip then None else f.source)
    requires code == WordBytes(|f.code|) + WordsBytes(f.code) && k == WordBytes(|f.k|) + ConstantsBytes(f.k)
    requires p == WordBytes(|f.p|) + FunctionsBytes(f.p, f.source, strip)
    requires lines == WordBytes(if strip then 0 else |f.lineinfo|) + (if strip then [] else WordsBytes(f.lineinfo))
    requires vars == WordBytes(if strip then 0 else |f.locvars|) + (if strip then [] else LocVarsBytes(f.locvars))
    requires names == WordBytes(if strip then 0 else |f.upvalues|) + (if strip then [] else StringsBytes(f.upvalues))
    ensures FunctionBytes(f, parent, strip) ==
            a + WordBytes(f.linedefined) + WordBytes(f.lastlinedefined)
            + [f.nups, f.numparams, f.isVararg, f.maxstacksize] + code + k + p + lines + vars + names
  {
    hide WordBytes, StringBytes, WordsBytes, ConstantsBytes, FunctionsBytes, LocVarsBytes, StringsBytes;
    assert DebugBytes(f, strip) == lines + vars + names;
    Joined(a, WordBytes(f.linedefined), WordBytes(f.lastlinedefined),
           [f.nups, f.numparams, f.isVararg, f.maxstacksize], code, k, p, lines + vars + names);
    Joined3(a + WordBytes(f.linedefined) + WordBytes(f.lastlinedefined)
            + [f.nups, f.numparams, f.isVararg, f.maxstacksize] + code + k + p, lines, vars, names);
  }

  lemma Joined(a: seq<byte>, b: seq<byte>, c: seq<byte>, d: seq<byte>, e: seq<byte>, f: seq<byte>,
               g: seq<byte>, h: seq<byte>)
    ensures (a + (b + (c + d))) + (e + ((f + g) + h)) == a + b + c + d + e + f + g + h
  {
  }

  lemma Joined3(a: seq<byte>, b: seq<byte>, c: seq<byte>, d: seq<byte>)
    ensures a + (b + c + d) == a + b + c + d
  {
  }

  // Every dump that the writer accepts begins with the same twelve bytes.
  method Header(f: Proto, writer: Writer, strip: bool) returns (status: int, out: seq<byte>)
    ensures status == 0 ==> |out| >= 12 && out[..12] == [27, 76, 117, 97, 81, 0, 1, 4, 4, 4, 8, 0]
  {
    status, out := Dump(f, writer, strip);
  }

  // The bytes behind the header of a dump that is accepted throughout.
  method Body(f: Proto, strip: bool) returns (body: seq<byte>)
    ensures body == FunctionBytes(f, None, strip)
  {
    var status, out := Dump(f, (o, b) => 0, strip);
    assert out == HEADER + FunctionBytes(f, None, strip);
    return out[12..];
  }

  // A function with empty vectors: its source with the size in front and a zero behind, its
  // two lines, its four bytes, and the sizes of six vectors. Numbers have their lowest byte first.
  method EmptyVectors(f: Proto, s: seq<byte>, size: seq<byte>, first: seq<byte>, last: seq<byte>)
    returns (body: seq<byte>)
    requires f.code == [] && f.k == [] && f.p == [] && f.lineinfo == [] && f.locvars == [] && f.upvalues == []
    requires f.source == Some(s) && |size| == |first| == |last| == 4
    requires |s| + 1 == size[0] as int + 256 * size[1] as int + 65536 * size[2] as int + 16777216 * size[3] as int
    requires f.linedefined ==
             first[0] as int + 256 * first[1] as int + 65536 * first[2] as int + 16777216 * first[3] as int
    requires f.lastlinedefined ==
             last[0] as int + 256 * last[1] as int + 65536 * last[2] as int + 16777216 * last[3] as int
    ensures body == (size + s + [0]) + first + last + [f.nups, f.numparams, f.isVararg, f.maxstacksize]
                    + [0, 0, 0, 0] + [0, 0, 0, 0] + [0, 0, 0, 0] + [0, 0, 0, 0] + [0, 0, 0, 0] + [0, 0, 0, 0]
  {
    body := Body(f, false);
    WordOf(|s| + 1, size);
    WordOf(f.linedefined, first);
    WordOf(f.lastlinedefined, last);
    SmallWord(0);
    hide WordBytes, FunctionBytes;
    var z: seq<byte> := [0, 0, 0, 0];
    assert z + [] == z;
    Row(f, None, false, size + s + [0], z, z, z, z, z, z);
  }

  // The four kinds of constants, as the only constant of a stripped function.
  method OneConstant(c: Constant, size: seq<byte>) returns (body: seq<byte>)
    requires c.StringConstant? && c.s.Some? ==>
               |size| == 4 && |c.s.value| + 1 ==
               size[0] as int + 256 * size[1] as int + 65536 * size[2] as int + 16777216 * size[3] as int
    ensures var tagged := match c
                          case NilConstant => [0]
                          case BoolConstant(b) => [1, if b then 1 else 0]
                          case NumberConstant(bits) => [3] + bits
                          case StringConstant(None) => [4] + [0, 0, 0, 0]
                          case StringConstant(Some(t)) => [4] + (size + t + [0]);
            body == [0, 0, 0, 0] + [7, 0, 0, 0] + [8, 0, 0, 0] + [1, 2, 3, 4]
                    + [0, 0, 0, 0] + ([1, 0, 0, 0] + tagged) + [0, 0, 0, 0]
                    + [0, 0, 0, 0] + [0, 0, 0, 0] + [0, 0, 0, 0]
  {
    var f := Proto(None, 7, 8, 1, 2, 3, 4, [], [c], [], [], [], []);
    body := Body(f, true);
    SmallWord(0);
    SmallWord(1);
    SmallWord(7);
    SmallWord(8);
    if c.StringConstant? && c.s.Some? { WordOf(|c.s.value| + 1, size); }
    hide WordBytes, FunctionBytes;
    var z: seq<byte> := [0, 0, 0, 0];
    assert z + [] == z;
    assert ConstantsBytes([c]) == ConstantBytes(c) by { assert ConstantBytes(c) + [] == ConstantBytes(c); }
    Row(f, None, true, z, z, [1, 0, 0, 0] + ConstantBytes(c), z, z, z, z);
  }

  // One entry in every vector; the inner function has the same source, which is left out.
  method OneOfEach(s: byte, v: byte, u: byte, i: seq<byte>, line: seq<byte>) returns (body: seq<byte>)
    requires |i| == |line| == 4
    ensures var z: seq<byte> := [0, 0, 0, 0];
            body == ([2, 0, 0, 0] + [s] + [0]) + [7, 0, 0, 0] + [8, 0, 0, 0] + [1, 2, 3, 4]
                    + ([1, 0, 0, 0] + i)
                    + ([1, 0, 0, 0] + [0])
                    + ([1, 0, 0, 0] + (z + [5, 0, 0, 0] + [6, 0, 0, 0] + [0, 0, 0, 2] + z + z + z + z + z + z))
                    + ([1, 0, 0, 0] + line)
                    + ([1, 0, 0, 0] + (([2, 0, 0, 0] + [v] + [0]) + [3, 0, 0, 0] + [9, 0, 0, 0]))
                    + ([1, 0, 0, 0] + ([2, 0, 0, 0] + [u] + [0]))
  {
    var word := i[0] as int + 256 * i[1] as int + 65536 * i[2] as int + 16777216 * i[3] as int;
    var at := line[0] as int + 256 * line[1] as int + 65536 * line[2] as int + 16777216 * line[3] as int;
    var g := Inner(s);
    var x := LocVar(Some([v]), 3, 9);
    var f := Proto(Some([s]), 7, 8, 1, 2, 3, 4, [word], [NilConstant], [g], [at], [x], [Some([u])]);
    body := Body(f, false);
    SmallWord(1);
    SmallWord(7);
    SmallWord(8);
    WordOf(word, i);
    WordOf(at, line);
    OneCharacter(s);
    OneCharacter(u);
    InnerBytes(s);
    VariableBytes(v);
    OneEntry(word, at, g, x, Some([u]), f.source);
    hide WordBytes, FunctionBytes, FunctionsBytes, WordsBytes, ConstantsBytes, LocVarsBytes, LocVarBytes,
         StringsBytes, StringBytes, Inner;
    Row(f, None, false, [2, 0, 0, 0] + [s] + [0], [1, 0, 0, 0] + i, [1, 0, 0, 0] + [0],
        [1, 0, 0, 0] + FunctionBytes(g, f.source, false), [1, 0, 0, 0] + line,
        [1, 0, 0, 0] + LocVarBytes(x), [1, 0, 0, 0] + StringBytes(Some([u])));
  }

  lemma OneCharacter(s: byte)
    ensures StringBytes(Some([s])) == [2, 0, 0, 0] + [s] + [0]
  {
    SmallWord(2);
  }

  function Inner(s: byte): Proto { Proto(Some([s]), 5, 6, 0, 0, 0, 2, [], [], [], [], [], []) }

  lemma InnerBytes(s: byte)
    ensures var z: seq<byte> := [0, 0, 0, 0];
            FunctionBytes(Inner(s), Some([s]), false) ==
            z + [5, 0, 0, 0] + [6, 0, 0, 0] + [0, 0, 0, 2] + z + z + z + z + z + z
  {
    SmallWord(0);
    SmallWord(5);
    SmallWord(6);
    hide WordBytes, FunctionBytes;
    var z: seq<byte> := [0, 0, 0, 0];
    assert z + [] == z;
    Row(Inner(s), Some([s]), false, z, z, z, z, z, z, z);
  }

  lemma VariableBytes(v: byte)
    ensures LocVarBytes(LocVar(Some([v]), 3, 9)) == ([2, 0, 0, 0] + [v] + [0]) + [3, 0, 0, 0] + [9, 0, 0, 0]
  {
    OneCharacter(v);
    SmallWord(3);
    SmallWord(9);
  }

  lemma OneEntry(word: int, at: int, g: Proto, x: LocVar, u: Str, source: Str)
    ensures WordsBytes([word]) == WordBytes(word) && WordsBytes([at]) == WordBytes(at)
    ensures ConstantsBytes([NilConstant]) == [0]
    ensures FunctionsBytes([g], source, false) == FunctionBytes(g, source, false)
    ensures LocVarsBytes([x]) == LocVarBytes(x) && StringsBytes([u]) == StringBytes(u)
  {
    hide WordBytes, FunctionBytes, LocVarBytes, StringBytes;
    assert forall w: seq<byte> :: w + [] == w;
    assert ConstantBytes(NilConstant) == [0];
  }

  // A function whose source was stripped comes back with the source `=?`.
  method Anonymous(f: Proto, check: Proto -> bool) returns (r: ChunkUndump.Outcome<Proto>)
    requires Fits(f) && Depth(f) <= 200 && Accepted(check, Loaded(f, None, Some([61, 63]), true))
    ensures r.Success? && r.value.source == Some([61, 63])
    ensures r.value.code == f.code && r.value.k == f.k && |r.value.p| == |f.p|
    ensures r.value.lineinfo == [] && r.value.locvars == [] && r.value.upvalues == []
  {
    hide FunctionBytes, Accepted, Fits, Depth;
    var status, out := Dump(f, (o, b) => 0, true);
    var end;
    r, end := Undump(out, check, 0, f, true);
  }
}
