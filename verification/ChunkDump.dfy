// Writing a function as a precompiled chunk.
module ChunkDump {
  import opened ChunkFormat

  // What has been handed to the writer, and the status it gave last.
  datatype Sink = Sink(out: seq<byte>, status: int)

  // The status of writing a block, given what was written before it.
  type Writer = (seq<byte>, seq<byte>) -> int

  ghost predicate Refused(w: Writer, s: Sink) {
    s.status != 0 && exists n: nat :: n <= |s.out| && w(s.out[..n], s.out[n..]) == s.status
  }

  // From s to t the bytes b were written: all of them, unless the writer refused the last block it was given.
  ghost predicate Wrote(w: Writer, s: Sink, t: Sink, b: seq<byte>) {
    && (s.status != 0 ==> t == s)
    && s.out <= t.out <= s.out + b
    && (t.status == 0 ==> t.out == s.out + b)
    && (s.status == 0 ==> t.status == 0 || Refused(w, t))
  }

  lemma WroteBoth(w: Writer, s: Sink, m: Sink, t: Sink, a: seq<byte>, b: seq<byte>)
    requires Wrote(w, s, m, a) && Wrote(w, m, t, b)
    ensures Wrote(w, s, t, a + b)
  {
    hide Refused;
    assert s.out + (a + b) == (s.out + a) + b;
  }

  lemma WroteBlock(w: Writer, s: Sink, b: seq<byte>)
    requires s.status == 0
    ensures Wrote(w, s, Sink(s.out + b, w(s.out, b)), b)
  {
    var o, n := s.out + b, |s.out|;
    assert o[..n] == s.out && o[n..] == b;
  }

  class DumpState {
    const writer: Writer
    const strip: bool
    var out: seq<byte>
    var status: int

    constructor (writer: Writer, strip: bool)
      ensures this.writer == writer && this.strip == strip && At() == Sink([], 0)
    {
      this.writer, this.strip, out, status := writer, strip, [], 0;
    }

    ghost function At(): Sink reads this { Sink(out, status) }

    ghost predicate After(s: Sink, b: seq<byte>) reads this { Wrote(writer, s, At(), b) }

    method DumpBlock(b: seq<byte>)
      modifies this
      ensures old(status) != 0 ==> At() == old(At())
      ensures old(status) == 0 ==> At() == Sink(old(out) + b, writer(old(out), b))
      ensures After(old(At()), b)
    {
      if status == 0 {
        WroteBlock(writer, At(), b);
        status := writer(out, b);
        out := out + b;
      } else {
        assert out <= out + b;
      }
    }

    method DumpChar(c: byte)
      modifies this
      ensures After(old(At()), [c])
    {
      DumpBlock([c]);
    }

    method DumpInt(n: int)
      modifies this
      ensures After(old(At()), WordBytes(n))
    {
      DumpBlock(WordBytes(n));
    }

    method DumpVector(ns: seq<int>)
      modifies this
      ensures After(old(At()), WordBytes(|ns|) + WordsBytes(ns))
    {
      ghost var s := At();
      DumpInt(|ns|);
      ghost var m := At();
      DumpBlock(WordsBytes(ns));
      WroteBoth(writer, s, m, At(), WordBytes(|ns|), WordsBytes(ns));
    }

    method DumpString(s: Str)
      modifies this
      ensures After(old(At()), StringBytes(s))
    {
      ghost var was := At();
      if s.None? {
        DumpBlock(WordBytes(0));
      } else {
        var size := |s.value| + 1;
        DumpBlock(WordBytes(size));
        ghost var m := At();
        DumpBlock(s.value + [0]);
        WroteBoth(writer, was, m, At(), WordBytes(size), s.value + [0]);
        assert WordBytes(size) + (s.value + [0]) == StringBytes(s);
      }
    }

    method DumpConstant(c: Constant)
      modifies this
      ensures After(old(At()), ConstantBytes(c))
    {
      ghost var s := At();
      match c
      case NilConstant =>
        DumpChar(TNIL);
      case BoolConstant(b) =>
        DumpChar(TBOOLEAN);
        ghost var m := At();
        DumpChar(if b then 1 else 0);
        WroteBoth(writer, s, m, At(), [TBOOLEAN], [if b then 1 else 0]);
      case NumberConstant(bits) =>
        DumpChar(TNUMBER);
        ghost var m := At();
        DumpBlock(bits);
        WroteBoth(writer, s, m, At(), [TNUMBER], bits);
      case StringConstant(t) =>
        DumpChar(TSTRING);
        ghost var m := At();
        DumpString(t);
        WroteBoth(writer, s, m, At(), [TSTRING], StringBytes(t));
    }

    method DumpConstants(f: Proto)
      modifies this
      ensures After(old(At()),
              (WordBytes(|f.k|) + ConstantsBytes(f.k)) + (WordBytes(|f.p|) + FunctionsBytes(f.p, f.source, strip)))
      decreases f, 0, 1
    {
      ghost var s := At();
      DumpInt(|f.k|);
      ghost var b := WordBytes(|f.k|);
      var i := 0;
      while i < |f.k|
        invariant i <= |f.k| && After(s, b) && b + ConstantsBytes(f.k[i..]) == WordBytes(|f.k|) + ConstantsBytes(f.k)
      {
        hide Wrote, ConstantBytes, ConstantsBytes, WordBytes;
        ghost var m := At();
        DumpConstant(f.k[i]);
        WroteBoth(writer, s, m, At(), b, ConstantBytes(f.k[i]));
        ConstantsFrom(f.k, i, b);
        b := b + ConstantBytes(f.k[i]);
        i := i + 1;
      }
      ghost var t := At();
      DumpFunctions(f);
      WroteBoth(writer, s, t, At(), WordBytes(|f.k|) + ConstantsBytes(f.k),
        WordBytes(|f.p|) + FunctionsBytes(f.p, f.source, strip));
    }

    // The functions inside f.
    method DumpFunctions(f: Proto)
      modifies this
      ensures After(old(At()), WordBytes(|f.p|) + FunctionsBytes(f.p, f.source, strip))
      decreases f, 0, 0
    {
      hide StringBytes, LocVarsBytes, HeadBytes;
      ghost var s := At();
      DumpInt(|f.p|);
      ghost var b := WordBytes(|f.p|);
      var i := 0;
      while i < |f.p|
        invariant i <= |f.p| && After(s, b)
        invariant b + FunctionsBytes(f.p[i..], f.source, strip) ==
                  WordBytes(|f.p|) + FunctionsBytes(f.p, f.source, strip)
      {
        hide Wrote, FunctionBytes, FunctionsBytes, WordBytes;
        ghost var m := At();
        DumpFunction(f.p[i], f.source);
        WroteBoth(writer, s, m, At(), b, FunctionBytes(f.p[i], f.source, strip));
        FunctionsFrom(f.p, f.source, strip, i, b);
        b := b + FunctionBytes(f.p[i], f.source, strip);
        i := i + 1;
      }
    }

    method DumpLocVars(vs: seq<LocVar>)
      modifies this
      ensures After(old(At()), WordBytes(|vs|) + LocVarsBytes(vs))
    {
      ghost var s := At();
      DumpInt(|vs|);
      ghost var b := WordBytes(|vs|);
      var i := 0;
      while i < |vs|
        invariant i <= |vs| && After(s, b) && b + LocVarsBytes(vs[i..]) == WordBytes(|vs|) + LocVarsBytes(vs)
      {
        hide Wrote, LocVarsBytes, StringBytes, WordBytes;
        var v := vs[i];
        ghost var m := At();
        DumpString(v.varname);
        ghost var n := At();
        DumpInt(v.startpc);
        ghost var o := At();
        DumpInt(v.endpc);
        WroteBoth(writer, m, n, o, StringBytes(v.varname), WordBytes(v.startpc));
        WroteBoth(writer, m, o, At(), StringBytes(v.varname) + WordBytes(v.startpc), WordBytes(v.endpc));
        WroteBoth(writer, s, m, At(), b, LocVarBytes(v));
        LocVarsFrom(vs, i, b);
        b := b + LocVarBytes(v);
        i := i + 1;
      }
    }

    method DumpUpvalues(names: seq<Str>)
      modifies this
      ensures After(old(At()), WordBytes(|names|) + StringsBytes(names))
    {
      ghost var s := At();
      DumpInt(|names|);
      ghost var b := WordBytes(|names|);
      var i := 0;
      while i < |names|
        invariant i <= |names| && After(s, b)
                  && b + StringsBytes(names[i..]) == WordBytes(|names|) + StringsBytes(names)
      {
        hide Wrote, StringsBytes, StringBytes, WordBytes;
        ghost var m := At();
        DumpString(names[i]);
        WroteBoth(writer, s, m, At(), b, StringBytes(names[i]));
        StringsFrom(names, i, b);
        b := b + StringBytes(names[i]);
        i := i + 1;
      }
    }

    method DumpDebug(f: Proto)
      modifies this
      ensures After(old(At()), DebugBytes(f, strip))
    {
      ghost var s := At();
      var lines, vars, names := f.lineinfo, f.locvars, f.upvalues;
      if strip { lines, vars, names := [], [], []; }
      ghost var a, b, c := WordBytes(|lines|) + WordsBytes(lines), WordBytes(|vars|) + LocVarsBytes(vars),
          WordBytes(|names|) + StringsBytes(names);
      DumpVector(lines);
      ghost var m := At();
      DumpLocVars(vars);
      ghost var n := At();
      DumpUpvalues(names);
      WroteBoth(writer, s, m, n, a, b);
      WroteBoth(writer, s, n, At(), a + b, c);
      DebugParts(f, strip, lines, vars, names);
    }

    method DumpFunction(f: Proto, parent: Str)
      modifies this
      ensures After(old(At()), FunctionBytes(f, parent, strip))
      decreases f, 1, 0
    {
      ghost var s := At();
      DumpString(if f.source == parent || strip then None else f.source);
      ghost var b := StringBytes(if f.source == parent || strip then None else f.source);
      ghost var m := At();
      DumpInt(f.linedefined);
      WroteBoth(writer, s, m, At(), b, WordBytes(f.linedefined));
      b, m := b + WordBytes(f.linedefined), At();
      DumpInt(f.lastlinedefined);
      WroteBoth(writer, s, m, At(), b, WordBytes(f.lastlinedefined));
      b, m := b + WordBytes(f.lastlinedefined), At();
      DumpChar(f.nups);
      WroteBoth(writer, s, m, At(), b, [f.nups]);
      b, m := b + [f.nups], At();
      DumpChar(f.numparams);
      WroteBoth(writer, s, m, At(), b, [f.numparams]);
      b, m := b + [f.numparams], At();
      DumpChar(f.isVararg);
      WroteBoth(writer, s, m, At(), b, [f.isVararg]);
      b, m := b + [f.isVararg], At();
      DumpChar(f.maxstacksize);
      WroteBoth(writer, s, m, At(), b, [f.maxstacksize]);
      b, m := b + [f.maxstacksize], At();
      HeadParts(f, parent, strip);
      DumpVector(f.code);
      ghost var n := At();
      DumpConstants(f);
      ghost var o := At();
      DumpDebug(f);
      ghost var c, k := WordBytes(|f.code|) + WordsBytes(f.code),
        (WordBytes(|f.k|) + ConstantsBytes(f.k)) + (WordBytes(|f.p|) + FunctionsBytes(f.p, f.source, strip));
      WroteBoth(writer, n, o, At(), k, DebugBytes(f, strip));
      WroteBoth(writer, m, n, At(), c, k + DebugBytes(f, strip));
      WroteBoth(writer, s, m, At(), b, c + (k + DebugBytes(f, strip)));
    }

    method DumpHeader()
      modifies this
      ensures After(old(At()), HEADER)
    {
      DumpBlock(HEADER);
    }
  }

  lemma ConstantsFrom(cs: seq<Constant>, i: nat, b: seq<byte>)
    requires i < |cs|
    ensures b + ConstantsBytes(cs[i..]) == b + ConstantBytes(cs[i]) + ConstantsBytes(cs[i + 1..])
  {
    assert cs[i..][1..] == cs[i + 1..];
  }

  lemma FunctionsFrom(fs: seq<Proto>, parent: Str, strip: bool, i: nat, b: seq<byte>)
    requires i < |fs|
    ensures b + FunctionsBytes(fs[i..], parent, strip) ==
            b + FunctionBytes(fs[i], parent, strip) + FunctionsBytes(fs[i + 1..], parent, strip)
  {
    hide FunctionBytes;
    assert fs[i..][1..] == fs[i + 1..];
  }

  lemma LocVarsFrom(vs: seq<LocVar>, i: nat, b: seq<byte>)
    requires i < |vs|
    ensures b + LocVarsBytes(vs[i..]) == b + LocVarBytes(vs[i]) + LocVarsBytes(vs[i + 1..])
  {
    assert vs[i..][1..] == vs[i + 1..];
  }

  lemma StringsFrom(ss: seq<Str>, i: nat, b: seq<byte>)
    requires i < |ss|
    ensures b + StringsBytes(ss[i..]) == b + StringBytes(ss[i]) + StringsBytes(ss[i + 1..])
  {
    assert ss[i..][1..] == ss[i + 1..];
  }

  lemma DebugParts(f: Proto, strip: bool, lines: seq<int>, vars: seq<LocVar>, names: seq<Str>)
    requires lines == (if strip then [] else f.lineinfo) && vars == (if strip then [] else f.locvars)
    requires names == if strip then [] else f.upvalues
    ensures DebugBytes(f, strip)
         == (WordBytes(|lines|) + WordsBytes(lines)) + (WordBytes(|vars|) + LocVarsBytes(vars))
           + (WordBytes(|names|) + StringsBytes(names))
  {
    hide WordBytes;
    assert WordBytes(0) + [] == WordBytes(0);
  }

  lemma HeadParts(f: Proto, parent: Str, strip: bool)
    ensures HeadBytes(f, parent, strip)
         == StringBytes(if f.source == parent || strip then None else f.source) + WordBytes(f.linedefined)
            + WordBytes(f.lastlinedefined) + [f.nups] + [f.numparams] + [f.isVararg] + [f.maxstacksize]
  {
    hide WordBytes, StringBytes;
  }

  // Dumps a whole chunk.
  method Dump(f: Proto, writer: Writer, strip: bool) returns (status: int, out: seq<byte>)
    ensures Wrote(writer, Sink([], 0), Sink(out, status), HEADER + FunctionBytes(f, None, strip))
  {
    var d := new DumpState(writer, strip);
    d.DumpHeader();
    ghost var m := d.At();
    d.DumpFunction(f, None);
    WroteBoth(writer, Sink([], 0), m, d.At(), HEADER, FunctionBytes(f, None, strip));
    return d.status, d.out;
  }
}
