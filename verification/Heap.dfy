// The objects the collector manages, what they refer to, and what can be
// reached from the roots.
module Heap {
  type Id = nat

  // The mark bits: white in one of two shades, gray when no bit is set, black.
  datatype Color = White(shade: bool) | Gray | Black

  // A value is collectable only as a Ref.
  datatype Value = Nil | Data | Ref(id: Id)

  datatype Node = Node(key: Value, val: Value)

  // Which parts of a table are weak.
  datatype Mode = Mode(keys: bool, values: bool)

  const STRONG := Mode(false, false)

  // mode of a table is what its own "__mode" field asks of the tables that have it as metatable.
  datatype Body =
    | StringBody(hash: nat)
    | UserdataBody(metatable: Value, env: Value)
    | UpvalBody(value: Value)
    | ClosureBody(env: Value, proto: Value, upvals: seq<Value>)
    | ProtoBody(source: Value, constants: seq<Value>, upvalues: seq<Value>, protos: seq<Value>, locvars: seq<Value>)
    | TableBody(metatable: Value, items: seq<Value>, nodes: seq<Node>, mode: Mode)
    | ThreadBody(globals: Value, stack: seq<Value>)

  // weak holds the KEYWEAK and VALUEWEAK bits a table got when last found weak.
  datatype Object = Object(color: Color, fixed: bool, weak: Mode, body: Body)

  type Objects = map<Id, Object>

  function Reversed(vs: seq<Value>): (r: seq<Value>)
    ensures |r| == |vs|
  {
    seq(|vs|, i requires 0 <= i < |vs| => vs[|vs| - 1 - i])
  }

  // The values of the hash part a traversal marks, last node first and each
  // key before its value; an empty entry refers to nothing.
  function NodeMarks(nodes: seq<Node>, m: Mode): (r: seq<Value>)
    ensures |r| == 2 * |nodes|
  {
    seq(2 * |nodes|, j requires 0 <= j < 2 * |nodes| =>
      var n := nodes[|nodes| - 1 - j / 2];
      if n.val.Nil? then Nil
      else if j % 2 == 0 then (if m.keys then Nil else n.key)
      else (if m.values then Nil else n.val))
  }

  // What a traversal of the object marks, in order.
  function Marks(b: Body, m: Mode): seq<Value> {
    match b
    case StringBody(_) => []
    case UserdataBody(mt, env) => [mt, env]
    case UpvalBody(v) => [v]
    case ClosureBody(env, p, us) => [env, p] + us
    case ProtoBody(s, ks, us, ps, ls) => [s] + ks + us + ps + ls
    case TableBody(mt, a, ns, _) => [mt] + (if m.values then [] else Reversed(a)) + NodeMarks(ns, m)
    case ThreadBody(g, s) => [g] + s
  }

  // The mode a table's metatable gives it.
  function ModeOf(h: Objects, b: Body): Mode {
    if b.TableBody? && b.metatable.Ref? && b.metatable.id in h && h[b.metatable.id].body.TableBody?
    then h[b.metatable.id].body.mode
    else STRONG
  }

  function MarkedBy(h: Objects, b: Body): seq<Value> { Marks(b, ModeOf(h, b)) }

  predicate Refers(b: Body, r: Id) { Ref(r) in Marks(b, STRONG) }

  lemma StrongRefers(h: Objects, b: Body, r: Id)
    requires Ref(r) in MarkedBy(h, b)
    ensures Refers(b, r)
  {
    if b.TableBody? {
      NodeMarksWeaker(b.nodes, ModeOf(h, b), r);
    }
  }

  lemma NodeMarksWeaker(ns: seq<Node>, m: Mode, r: Id)
    ensures Ref(r) in NodeMarks(ns, m) ==> Ref(r) in NodeMarks(ns, STRONG)
  {
    if Ref(r) in NodeMarks(ns, m) {
      var j :| 0 <= j < 2 * |ns| && NodeMarks(ns, m)[j] == Ref(r);
      assert NodeMarks(ns, STRONG)[j] == Ref(r);
    }
  }

  // An access from a root: the number of the root, then at each object the
  // number of the reference followed. A reference may dangle.
  function Follow(h: Objects, roots: seq<Value>, strong: bool, path: seq<nat>): (v: Value)
    ensures v.Nil? || v.Ref?
  {
    if path == [] then Nil
    else
      var k := path[|path| - 1];
      var vs :=
        if |path| == 1 then roots
        else match Follow(h, roots, strong, path[..|path| - 1])
             case Ref(o) => if o in h then (if strong then MarkedBy(h, h[o].body) else Marks(h[o].body, STRONG)) else []
             case _ => [];
      if k < |vs| && vs[k].Ref? then vs[k] else Nil
  }

  ghost predicate Reachable(h: Objects, roots: seq<Value>, o: Id) {
    exists path :: Follow(h, roots, false, path) == Ref(o)
  }

  ghost predicate StronglyReachable(h: Objects, roots: seq<Value>, o: Id) {
    exists path :: Follow(h, roots, true, path) == Ref(o)
  }

  // Nothing outside a set that holds the roots and is closed under references is reachable.
  lemma {:induction false} FollowWithin(h: Objects, roots: seq<Value>, strong: bool, path: seq<nat>, c: iset<Id>)
    requires forall r :: Ref(r) in roots ==> r in c
    requires forall o, r ::
               o in c && o in h && Ref(r) in (if strong then MarkedBy(h, h[o].body) else Marks(h[o].body, STRONG)) ==>
                 r in c
    ensures var v := Follow(h, roots, strong, path); v.Ref? ==> v.id in c
    decreases |path|
  {
    if |path| > 1 {
      FollowWithin(h, roots, strong, path[..|path| - 1], c);
    }
  }

  // One more reference followed.
  lemma FollowStep(h: Objects, roots: seq<Value>, path: seq<nat>, o: Id, r: Id)
    requires Follow(h, roots, true, path) == Ref(o) && o in h && Ref(r) in MarkedBy(h, h[o].body)
    ensures StronglyReachable(h, roots, r)
  {
    var vs := MarkedBy(h, h[o].body);
    var k :| 0 <= k < |vs| && vs[k] == Ref(r);
    var longer := path + [k];
    assert longer[..|longer| - 1] == path;
    assert Follow(h, roots, true, longer) == Ref(r);
  }

  lemma FollowAnyStep(h: Objects, roots: seq<Value>, path: seq<nat>, o: Id, r: Id)
    requires Follow(h, roots, false, path) == Ref(o) && o in h && Refers(h[o].body, r)
    ensures Reachable(h, roots, r)
  {
    var vs := Marks(h[o].body, STRONG);
    var k :| 0 <= k < |vs| && vs[k] == Ref(r);
    var longer := path + [k];
    assert longer[..|longer| - 1] == path;
    assert Follow(h, roots, false, longer) == Ref(r);
  }

  lemma FollowRoot(h: Objects, roots: seq<Value>, r: Id)
    requires Ref(r) in roots
    ensures StronglyReachable(h, roots, r)
  {
    var k :| 0 <= k < |roots| && roots[k] == Ref(r);
    assert Follow(h, roots, true, [k]) == Ref(r);
  }

  // ---------- references, field by field ----------

  ghost predicate In(v: Value, s: iset<Id>) { v.Ref? ==> v.id in s }

  // Every field that is not weak lies in s.
  ghost predicate FieldsIn(b: Body, m: Mode, s: iset<Id>) {
    match b
    case StringBody(_) => true
    case UserdataBody(mt, env) => In(mt, s) && In(env, s)
    case UpvalBody(v) => In(v, s)
    case ClosureBody(env, p, us) => In(env, s) && In(p, s) && forall v :: v in us ==> In(v, s)
    case ProtoBody(source, ks, us, ps, ls) =>
      && In(source, s) && (forall v :: v in ks ==> In(v, s)) && (forall v :: v in us ==> In(v, s))
      && (forall v :: v in ps ==> In(v, s)) && (forall v :: v in ls ==> In(v, s))
    case TableBody(mt, items, ns, _) =>
      && In(mt, s) && (!m.values ==> forall v :: v in items ==> In(v, s))
      && forall n :: n in ns && !n.val.Nil? ==> (!m.keys ==> In(n.key, s)) && (!m.values ==> In(n.val, s))
    case ThreadBody(g, vs) => In(g, s) && forall v :: v in vs ==> In(v, s)
  }

  lemma FieldsExactly(b: Body, m: Mode, s: iset<Id>)
    ensures (forall r :: Ref(r) in Marks(b, m) ==> r in s) <==> FieldsIn(b, m, s)
  {
    MarkedIn(Marks(b, m), s);
    match b {
      case TableBody(mt, items, ns, _) =>
        ReversedIn(items);
        NodeMarksIn(ns, m, s);
        var a, c := (if m.values then [] else Reversed(items)), NodeMarks(ns, m);
        assert Marks(b, m) == [mt] + a + c;
        assert forall v :: v in Marks(b, m) <==> v == mt || v in a || v in c;
      case UserdataBody(mt, env) => assert forall v :: v in [mt, env] <==> v == mt || v == env;
      case ClosureBody(env, p, us) => assert forall v :: v in [env, p] + us <==> v == env || v == p || v in us;
      case _ =>
    }
  }

  lemma MarkedIn(vs: seq<Value>, s: iset<Id>)
    ensures (forall r :: Ref(r) in vs ==> r in s) <==> forall v :: v in vs ==> In(v, s)
  {
    if forall r :: Ref(r) in vs ==> r in s {
      forall v | v in vs ensures In(v, s) { if v.Ref? { assert v == Ref(v.id); } }
    }
    if forall v :: v in vs ==> In(v, s) {
      forall r | Ref(r) in vs ensures r in s { assert In(Ref(r), s); }
    }
  }

  lemma ReversedIn(vs: seq<Value>)
    ensures forall v :: v in Reversed(vs) <==> v in vs
  {
    forall v | v in vs ensures v in Reversed(vs) {
      var i :| 0 <= i < |vs| && vs[i] == v;
      assert Reversed(vs)[|vs| - 1 - i] == v;
    }
  }

  lemma NodeMarksIn(ns: seq<Node>, m: Mode, s: iset<Id>)
    ensures (forall v :: v in NodeMarks(ns, m) ==> In(v, s)) <==>
            forall n :: n in ns && !n.val.Nil? ==> (!m.keys ==> In(n.key, s)) && (!m.values ==> In(n.val, s))
  {
    var vs := NodeMarks(ns, m);
    if forall v :: v in vs ==> In(v, s) {
      forall n | n in ns && !n.val.Nil? ensures (!m.keys ==> In(n.key, s)) && (!m.values ==> In(n.val, s)) {
        var i :| 0 <= i < |ns| && ns[i] == n;
        var j := 2 * (|ns| - 1 - i);
        assert vs[j] in vs && vs[j + 1] in vs;
      }
    }
    if forall n :: n in ns && !n.val.Nil? ==> (!m.keys ==> In(n.key, s)) && (!m.values ==> In(n.val, s)) {
      forall v | v in vs ensures In(v, s) {
        var j :| 0 <= j < |vs| && vs[j] == v;
        assert ns[|ns| - 1 - j / 2] in ns;
      }
    }
  }

  // The object refers to r in one of its fields that are not weak.
  ghost predicate Mentions(b: Body, m: Mode, r: Id) {
    match b
    case StringBody(_) => false
    case UserdataBody(mt, env) => Ref(r) == mt || Ref(r) == env
    case UpvalBody(v) => Ref(r) == v
    case ClosureBody(env, p, us) => Ref(r) == env || Ref(r) == p || Ref(r) in us
    case ProtoBody(source, ks, us, ps, ls) =>
      Ref(r) == source || Ref(r) in ks || Ref(r) in us || Ref(r) in ps || Ref(r) in ls
    case TableBody(mt, items, ns, _) =>
      || Ref(r) == mt || (!m.values && Ref(r) in items)
      || exists n :: n in ns && !n.val.Nil? && ((!m.keys && Ref(r) == n.key) || (!m.values && Ref(r) == n.val))
    case ThreadBody(g, vs) => Ref(r) == g || Ref(r) in vs
  }

  // A traversal marks r just when one of these fields refers to it.
  lemma MarkedFields(b: Body, m: Mode, r: Id)
    ensures Ref(r) in Marks(b, m) <==>
              match b
              case StringBody(_) => false
              case UserdataBody(mt, env) => mt == Ref(r) || env == Ref(r)
              case UpvalBody(v) => v == Ref(r)
              case ClosureBody(env, proto, upvals) => env == Ref(r) || proto == Ref(r) || Ref(r) in upvals
              case ProtoBody(source, constants, upvalues, protos, locvars) =>
                || source == Ref(r) || Ref(r) in constants || Ref(r) in upvalues || Ref(r) in protos
                || Ref(r) in locvars
              case TableBody(mt, items, nodes, _) =>
                || mt == Ref(r) || (!m.values && Ref(r) in items)
                || exists n ::
                     && n in nodes && !n.val.Nil?
                     && ((!m.keys && n.key == Ref(r)) || (!m.values && n.val == Ref(r)))
              case ThreadBody(globals, stack) => globals == Ref(r) || Ref(r) in stack
  {
    MentionsMarked(b, m, r);
  }

  lemma MentionsMarked(b: Body, m: Mode, r: Id)
    ensures Mentions(b, m, r) <==> Ref(r) in Marks(b, m)
  {
    var s := iset x: Id | Ref(x) != Ref(r);
    FieldsExactly(b, m, s);
    assert (forall x :: Ref(x) in Marks(b, m) ==> x in s) <==> Ref(r) !in Marks(b, m);
  }

  // A path along fields: the first object is a root, each of the others is mentioned by the one before it.
  ghost predicate Chain(h: Objects, roots: seq<Value>, strong: bool, path: seq<Id>) {
    && path != [] && Ref(path[0]) in roots
    && forall i :: 0 < i < |path| ==> ChainedAt(h, strong, path, i)
  }

  ghost predicate ChainedAt(h: Objects, strong: bool, path: seq<Id>, i: nat)
    requires 0 < i < |path|
  {
    var o := path[i - 1];
    o in h && Mentions(h[o].body, if strong then ModeOf(h, h[o].body) else STRONG, path[i])
  }

  ghost predicate ReachedBy(h: Objects, roots: seq<Value>, strong: bool, o: Id) {
    exists path: seq<Id> :: path != [] && Chain(h, roots, strong, path) && path[|path| - 1] == o
  }

  // What can be reached is what paths along fields lead to.
  lemma ReachableByFields(h: Objects, roots: seq<Value>, o: Id)
    ensures Reachable(h, roots, o) <==> ReachedBy(h, roots, false, o)
    ensures StronglyReachable(h, roots, o) <==> ReachedBy(h, roots, true, o)
  {
    hide Follow, Chain;
    if Reachable(h, roots, o) {
      var ks :| Follow(h, roots, false, ks) == Ref(o);
      var path := ChainOf(h, roots, false, ks, o);
    }
    if StronglyReachable(h, roots, o) {
      var ks :| Follow(h, roots, true, ks) == Ref(o);
      var path := ChainOf(h, roots, true, ks, o);
    }
    if ReachedBy(h, roots, false, o) {
      var path: seq<Id> :| path != [] && Chain(h, roots, false, path) && path[|path| - 1] == o;
      var ks := ChainFollowed(h, roots, false, path);
    }
    if ReachedBy(h, roots, true, o) {
      var path: seq<Id> :| path != [] && Chain(h, roots, true, path) && path[|path| - 1] == o;
      var ks := ChainFollowed(h, roots, true, path);
    }
  }

  lemma {:induction false} ChainOf(h: Objects, roots: seq<Value>, strong: bool, ks: seq<nat>, o: Id)
    returns (path: seq<Id>)
    requires Follow(h, roots, strong, ks) == Ref(o)
    ensures path != [] && Chain(h, roots, strong, path) && path[|path| - 1] == o
    decreases |ks|
  {
    if |ks| == 1 { return [o]; }
    var q := Follow(h, roots, strong, ks[..|ks| - 1]).id;
    var m := if strong then ModeOf(h, h[q].body) else STRONG;
    assert q in h && Ref(o) in Marks(h[q].body, m);
    hide Mentions, Follow, Marks, ModeOf;
    var init := ChainOf(h, roots, strong, ks[..|ks| - 1], q);
    MentionsMarked(h[q].body, m, o);
    path := init + [o];
    forall i | 0 < i < |path| ensures ChainedAt(h, strong, path, i) {
      if i < |init| { assert ChainedAt(h, strong, init, i); }
    }
  }

  lemma {:induction false} ChainFollowed(h: Objects, roots: seq<Value>, strong: bool, path: seq<Id>)
    returns (ks: seq<nat>)
    requires Chain(h, roots, strong, path)
    ensures Follow(h, roots, strong, ks) == Ref(path[|path| - 1])
    decreases |path|
  {
    if |path| == 1 {
      var k :| 0 <= k < |roots| && roots[k] == Ref(path[0]);
      return [k];
    }
    var init, o, r := path[..|path| - 1], path[|path| - 2], path[|path| - 1];
    assert ChainedAt(h, strong, path, |path| - 1);
    forall i | 0 < i < |init| ensures ChainedAt(h, strong, init, i) { assert ChainedAt(h, strong, path, i); }
    var vs := if strong then MarkedBy(h, h[o].body) else Marks(h[o].body, STRONG);
    MentionsMarked(h[o].body, if strong then ModeOf(h, h[o].body) else STRONG, r);
    hide Mentions, ModeOf, Marks;
    ks := ChainFollowed(h, roots, strong, init);
    var k :| 0 <= k < |vs| && vs[k] == Ref(r);
    assert (ks + [k])[..|ks|] == ks;
    ks := ks + [k];
  }
}
