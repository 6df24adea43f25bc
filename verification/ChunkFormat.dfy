// The format of precompiled chunks: prototypes, and the bytes they are dumped as.
module ChunkFormat {
  type byte = b: int | 0 <= b < 256 witness 0

  datatype Option<T> = None | Some(value: T)

  // A string, or NULL.
  type Str = Option<seq<byte>>

  // A number is its eight bytes.
  datatype Constant = NilConstant | BoolConstant(b: bool) | NumberConstant(bits: seq<byte>) | StringConstant(s: Str)

  datatype LocVar = LocVar(varname: Str, startpc: int, endpc: int)

  datatype Proto = Proto(source: Str, linedefined: int, lastlinedefined: int,
                         nups: byte, numparams: byte, isVararg: byte, maxstacksize: byte,
                         code: seq<int>, k: seq<Constant>, p: seq<Proto>,
                         lineinfo: seq<int>, locvars: seq<LocVar>, upvalues: seq<Str>)

  const TNIL: byte := 0
  const TBOOLEAN: byte := 1
  const TNUMBER: byte := 3
  const TSTRING: byte := 4

  const HEADER: seq<byte> := [27, 76, 117, 97, 0x51, 0, 1, 4, 4, 4, 8, 0]

  const MAXCCALLS := 200

  // ---------- words ----------

  const WORD := 0x1_0000_0000
  const MAX_INT := 0x7fff_ffff

  function Low(n: int): (b: byte) { n % 0x100 }

  // Four bytes, the lowest first; negative integers in two's complement.
  function WordBytes(n: int): (w: seq<byte>)
    ensures |w| == 4
  {
    var m: int := n % WORD;
    var a: int, b: int, c: int := m / 0x100, m / 0x1_0000, m / 0x100_0000;
    [Low(m), Low(a), Low(b), Low(c)]
  }

  function Word(b: seq<byte>): (n: nat)
    requires |b| == 4
    ensures n < WORD
  {
    var b0: int, b1: int, b2: int, b3: int := b[0], b[1], b[2], b[3];
    b0 + 0x100 * b1 + 0x1_0000 * b2 + 0x100_0000 * b3
  }

  function Signed(n: nat): int { if n > MAX_INT then n - WORD else n }

  lemma WordOfBytes(n: int)
    ensures Word(WordBytes(n)) == n % WORD
    ensures -MAX_INT - 1 <= n <= MAX_INT ==> Signed(Word(WordBytes(n))) == n
  {
    var m := n % WORD;
    var a, b, c := m / 0x100, m / 0x1_0000, m / 0x100_0000;
    assert m == 0x100 * a + m % 0x100;
    assert a == 0x100 * b + a % 0x100;
    assert b == 0x100 * c + b % 0x100;
    assert c % 0x100 == c;
  }

  // The words of a vector, as read.
  function Words(b: seq<byte>): (ns: seq<nat>)
    requires |b| % 4 == 0
    ensures |ns| == |b| / 4 && forall i :: 0 <= i < |ns| ==> ns[i] < WORD
  {
    if b == [] then [] else [Word(b[..4])] + Words(b[4..])
  }

  function SignedWords(b: seq<byte>): (ns: seq<int>)
    requires |b| % 4 == 0
    ensures |ns| == |b| / 4 && forall i :: 0 <= i < |ns| ==> -MAX_INT - 1 <= ns[i] <= MAX_INT
  {
    if b == [] then [] else [Signed(Word(b[..4]))] + SignedWords(b[4..])
  }

  ghost predicate UnsignedWords(ns: seq<int>) { forall i :: 0 <= i < |ns| ==> 0 <= ns[i] < WORD }

  ghost predicate SignedInts(ns: seq<int>) { forall i :: 0 <= i < |ns| ==> -MAX_INT - 1 <= ns[i] <= MAX_INT }

  lemma {:induction false} WordsLength(ns: seq<int>)
    ensures |WordsBytes(ns)| == 4 * |ns|
  {
    if ns != [] { WordsLength(ns[1..]); }
  }

  lemma {:induction false} WordsOfBytes(ns: seq<int>)
    requires UnsignedWords(ns)
    ensures |WordsBytes(ns)| == 4 * |ns| && Words(WordsBytes(ns)) == ns
  {
    hide Word, WordBytes;
    WordsLength(ns);
    if ns != [] {
      WordsOfBytes(ns[1..]);
      WordOfBytes(ns[0]);
      var b := WordsBytes(ns);
      assert b[..4] == WordBytes(ns[0]) && b[4..] == WordsBytes(ns[1..]);
      assert ns == [ns[0]] + ns[1..];
    }
  }

  lemma {:induction false} SignedWordsOfBytes(ns: seq<int>)
    requires SignedInts(ns)
    ensures |WordsBytes(ns)| == 4 * |ns| && SignedWords(WordsBytes(ns)) == ns
  {
    hide Word, WordBytes, Signed;
    WordsLength(ns);
    if ns != [] {
      SignedWordsOfBytes(ns[1..]);
      WordOfBytes(ns[0]);
      var b := WordsBytes(ns);
      assert b[..4] == WordBytes(ns[0]) && b[4..] == WordsBytes(ns[1..]);
      assert ns == [ns[0]] + ns[1..];
    }
  }

  // ---------- what a dump writes ----------

  function StringBytes(s: Str): seq<byte> {
    match s
    case None => WordBytes(0)
    case Some(t) => WordBytes(|t| + 1) + t + [0]
  }

  function WordsBytes(ns: seq<int>): seq<byte> {
    if ns == [] then [] else WordBytes(ns[0]) + WordsBytes(ns[1..])
  }

  function ConstantBytes(c: Constant): seq<byte> {
    match c
    case NilConstant => [TNIL]
    case BoolConstant(b) => [TBOOLEAN, if b then 1 else 0]
    case NumberConstant(bits) => [TNUMBER] + bits
    case StringConstant(s) => [TSTRING] + StringBytes(s)
  }

  function ConstantsBytes(cs: seq<Constant>): seq<byte> {
    if cs == [] then [] else ConstantBytes(cs[0]) + ConstantsBytes(cs[1..])
  }

  function LocVarBytes(v: LocVar): seq<byte> {
    StringBytes(v.varname) + WordBytes(v.startpc) + WordBytes(v.endpc)
  }

  function LocVarsBytes(vs: seq<LocVar>): seq<byte> {
    if vs == [] then [] else LocVarBytes(vs[0]) + LocVarsBytes(vs[1..])
  }

  function StringsBytes(ss: seq<Str>): seq<byte> {
    if ss == [] then [] else StringBytes(ss[0]) + StringsBytes(ss[1..])
  }

  function DebugBytes(f: Proto, strip: bool): seq<byte> {
    if strip then WordBytes(0) + WordBytes(0) + WordBytes(0)
    else
      (WordBytes(|f.lineinfo|) + WordsBytes(f.lineinfo)) + (WordBytes(|f.locvars|) + LocVarsBytes(f.locvars))
      + (WordBytes(|f.upvalues|) + StringsBytes(f.upvalues))
  }

  function HeadBytes(f: Proto, parent: Str, strip: bool): seq<byte> {
    StringBytes(if f.source == parent || strip then None else f.source)
    + (WordBytes(f.linedefined) + (WordBytes(f.lastlinedefined) + [f.nups, f.numparams, f.isVararg, f.maxstacksize]))
  }

  // A function is dumped knowing the source of the function around it.
  function FunctionBytes(f: Proto, parent: Str, strip: bool): seq<byte>
    decreases f, 1
  {
    HeadBytes(f, parent, strip)
    + ((WordBytes(|f.code|) + WordsBytes(f.code))
       + (((WordBytes(|f.k|) + ConstantsBytes(f.k)) + (WordBytes(|f.p|) + FunctionsBytes(f.p, f.source, strip)))
          + DebugBytes(f, strip)))
  }

  function FunctionsBytes(fs: seq<Proto>, parent: Str, strip: bool): seq<byte>
    decreases fs, 0
  {
    if fs == [] then [] else FunctionBytes(fs[0], parent, strip) + FunctionsBytes(fs[1..], parent, strip)
  }

  // ---------- what a load makes of it ----------

  // The source of a loaded function: a source left out is that of the function around it.
  function LoadedSource(f: Proto, parent: Str, around: Str, strip: bool): Str {
    if f.source == parent || strip || f.source.None? then around else f.source
  }

  function Loaded(f: Proto, parent: Str, around: Str, strip: bool): Proto
    decreases f, 1
  {
    var source := LoadedSource(f, parent, around, strip);
    var g := f.(source := source, p := LoadedAll(f.p, f.source, source, strip));
    if strip then g.(lineinfo := [], locvars := [], upvalues := []) else g
  }

  function LoadedAll(fs: seq<Proto>, parent: Str, around: Str, strip: bool): (r: seq<Proto>)
    ensures |r| == |fs|
    decreases fs, 0
  {
    if fs == [] then [] else [Loaded(fs[0], parent, around, strip)] + LoadedAll(fs[1..], parent, around, strip)
  }

  ghost predicate SourcesKnown(f: Proto)
    decreases f
  {
    f.source.Some? && forall i :: 0 <= i < |f.p| ==> SourcesKnown(f.p[i])
  }

  // Without stripping, functions that all have a source are loaded as they were.
  lemma {:induction false} LoadedSame(f: Proto, parent: Str, around: Str)
    requires SourcesKnown(f) && (f.source == parent ==> around == parent)
    ensures Loaded(f, parent, around, false) == f
    decreases f, 1
  {
    LoadedAllSame(f.p, f.source);
  }

  lemma {:induction false} LoadedAllSame(fs: seq<Proto>, source: Str)
    requires forall i :: 0 <= i < |fs| ==> SourcesKnown(fs[i])
    ensures LoadedAll(fs, source, source, false) == fs
    decreases fs, 0
  {
    if fs != [] {
      LoadedSame(fs[0], source, source);
      LoadedAllSame(fs[1..], source);
    }
  }

  // ---------- what fits the format ----------

  predicate FitsInt(n: int) { 0 <= n <= MAX_INT }

  predicate FitsString(s: Str) { s.Some? ==> |s.value| + 1 < WORD }

  predicate FitsConstant(c: Constant) {
    match c
    case NumberConstant(bits) => |bits| == 8
    case StringConstant(s) => FitsString(s)
    case _ => true
  }

  ghost predicate FitsConstants(cs: seq<Constant>) { forall i :: 0 <= i < |cs| ==> FitsConstant(cs[i]) }

  predicate FitsLocVar(v: LocVar) { FitsString(v.varname) && FitsInt(v.startpc) && FitsInt(v.endpc) }

  ghost predicate FitsLocVars(vs: seq<LocVar>) { forall i :: 0 <= i < |vs| ==> FitsLocVar(vs[i]) }

  ghost predicate FitsStrings(ss: seq<Str>) { forall i :: 0 <= i < |ss| ==> FitsString(ss[i]) }

  ghost predicate Fits(f: Proto)
    decreases f
  {
    && FitsString(f.source) && FitsInt(f.linedefined) && FitsInt(f.lastlinedefined)
    && FitsInt(|f.code|) && UnsignedWords(f.code)
    && FitsInt(|f.k|) && FitsConstants(f.k)
    && FitsInt(|f.p|) && (forall i :: 0 <= i < |f.p| ==> Fits(f.p[i]))
    && FitsInt(|f.lineinfo|) && SignedInts(f.lineinfo)
    && FitsInt(|f.locvars|) && FitsLocVars(f.locvars)
    && FitsInt(|f.upvalues|) && FitsStrings(f.upvalues)
  }

  // Functions nested in functions, counting this one.
  ghost function Depth(f: Proto): (d: nat)
    decreases f, 1
  {
    1 + DepthAll(f.p)
  }

  ghost function DepthAll(fs: seq<Proto>): (d: nat)
    ensures forall i :: 0 <= i < |fs| ==> Depth(fs[i]) <= d
    decreases fs, 0
  {
    if fs == [] then 0
    else
      var d, r := Depth(fs[0]), DepthAll(fs[1..]);
      assert forall i :: 1 <= i < |fs| ==> fs[i] == fs[1..][i - 1];
      if d > r then d else r
  }

  // The bytecode verifier accepts a function and all functions in it.
  ghost predicate Accepted(check: Proto -> bool, f: Proto)
    decreases f
  {
    check(f) && forall i :: 0 <= i < |f.p| ==> Accepted(check, f.p[i])
  }
}
