// Clearing weak tables at the end of the mark phase.
module WeakTables {
  import opened Heap
  import opened Marking

  // A value to be removed from a weak table; strings are values and never are.
  predicate Gone(h: Objects, v: Value) {
    v.Ref? && v.id in h && !h[v.id].body.StringBody? && h[v.id].color.White?
  }

  function KeptValue(h: Objects, v: Value): Value { if Gone(h, v) then Nil else v }

  function KeptNode(h: Objects, n: Node): Node {
    if !n.val.Nil? && (Gone(h, n.key) || Gone(h, n.val)) then Node(n.key, Nil) else n
  }

  // What a weak table with the given weak bits is left with.
  function KeptBody(h: Objects, b: Body, bits: Mode): Body
    requires b.TableBody?
  {
    b.(items := if bits.values then seq(|b.items|, i requires 0 <= i < |b.items| => KeptValue(h, b.items[i]))
      else b.items,
       nodes := seq(|b.nodes|, i requires 0 <= i < |b.nodes| => KeptNode(h, b.nodes[i])))
  }

  // The values the clearing of nodes looks at; it marks the strings among them.
  function SeenNodes(h: Objects, ns: seq<Node>): (r: seq<Value>)
    ensures |r| == 2 * |ns|
  {
    seq(2 * |ns|, j requires 0 <= j < 2 * |ns| =>
      SeenEntry(h, ns[|ns| - 1 - j / 2])[j % 2])
  }

  function SeenEntry(h: Objects, n: Node): (r: seq<Value>)
    ensures |r| == 2
  {
    if n.val.Nil? then [Nil, Nil] else [n.key, if Gone(h, n.key) then Nil else n.val]
  }

  function Seen(h: Objects, b: Body, bits: Mode): seq<Value>
    requires b.TableBody?
  {
    (if bits.values then Reversed(b.items) else []) + SeenNodes(h, b.nodes)
  }

  // h' is h with the white strings of vs turned gray.
  ghost predicate StringsMarked(h: Objects, vs: seq<Value>, h': Objects) {
    && h'.Keys == h.Keys
    && forall o :: o in h ==> h'[o] == if Ref(o) in vs && h[o].body.StringBody? && h[o].color.White?
                                       then h[o].(color := Gray) else h[o]
  }

  lemma StringsMore(h: Objects, vs: seq<Value>, h1: Objects, v: Value, h2: Objects)
    requires StringsMarked(h, vs, h1) && StringsMarked(h1, [v], h2)
    ensures StringsMarked(h, vs + [v], h2)
  {
  }

  lemma StringsGone(h: Objects, vs: seq<Value>, h': Objects)
    requires StringsMarked(h, vs, h')
    ensures forall v :: Gone(h', v) == Gone(h, v)
  {
  }

  // From h, the tables ts have been cleared.
  ghost predicate TablesCleared(h: Objects, ts: seq<Id>, h': Objects) {
    && h'.Keys == h.Keys
    && (forall o :: o in ts ==> o in h && h[o].body.TableBody?)
    && (forall o :: o in h ==> ClearedAt(h, ts, h', o))
  }

  ghost predicate ClearedAt(h: Objects, ts: seq<Id>, h': Objects, o: Id)
    requires o in h && o in h' && (o in ts ==> h[o].body.TableBody?)
  {
    && h'[o].fixed == h[o].fixed && h'[o].weak == h[o].weak
    && h'[o].body == (if o in ts then KeptBody(h, h[o].body, h[o].weak) else h[o].body)
    && h'[o].color == if h[o].color.White? && StringSeen(h, ts, o) then Gray else h[o].color
  }

  ghost predicate StringSeen(h: Objects, ts: seq<Id>, s: Id) {
    && s in h && h[s].body.StringBody?
    && exists t :: t in ts && t in h && h[t].body.TableBody? && Ref(s) in Seen(h, h[t].body, h[t].weak)
  }

  // One more table cleared.
  lemma ClearedMore(h: Objects, ts: seq<Id>, h1: Objects, t: Id, h2: Objects, h3: Objects)
    requires TablesCleared(h, ts, h1) && t in h && h[t].body.TableBody? && t !in ts
    requires StringsMarked(h1, Seen(h1, h1[t].body, h1[t].weak), h2)
    requires h3 == h2[t := h2[t].(body := KeptBody(h1, h1[t].body, h1[t].weak))]
    ensures TablesCleared(h, ts + [t], h3)
  {
    hide Seen, KeptBody, StringSeen, ClearedAt;
    assert h3.Keys == h.Keys;
    GoneStays(h, ts, h1);
    assert ClearedAt(h, ts, h1, t);
    ClearedTable(h, ts, h1, t);
    SameSeen(h, h1, h[t].body, h[t].weak);
    forall o | o in h ensures (o in ts + [t] ==> h[o].body.TableBody?) && ClearedAt(h, ts + [t], h3, o) {
      assert ClearedAt(h, ts, h1, o);
      ClearedAtMore(h, ts, h1, t, h2, h3, o);
    }
  }

  lemma ClearedTable(h: Objects, ts: seq<Id>, h': Objects, t: Id)
    requires t in h && t in h' && t !in ts && ClearedAt(h, ts, h', t)
    ensures h'[t].body == h[t].body && h'[t].weak == h[t].weak
  {
  }

  lemma ClearedAtMore(h: Objects, ts: seq<Id>, h1: Objects, t: Id, h2: Objects, h3: Objects, o: Id)
    requires t in h && h[t].body.TableBody? && t !in ts && h1.Keys == h.Keys == h2.Keys && o in h
    requires (o in ts ==> h[o].body.TableBody?) && ClearedAt(h, ts, h1, o)
    requires StringsMarked(h1, Seen(h, h[t].body, h[t].weak), h2)
    requires h3 == h2[t := h2[t].(body := KeptBody(h, h[t].body, h[t].weak))]
    ensures ClearedAt(h, ts + [t], h3, o)
  {
    hide Seen, KeptBody, StringSeen;
    KeptIsTable(h, h[o].body, h[o].weak);
    SeenIsString(h, ts + [t], o);
    SeenIsString(h, ts, o);
    if h[o].body.StringBody? { SeenMore(h, ts, t, o); }
  }

  lemma KeptIsTable(h: Objects, b: Body, bits: Mode)
    ensures b.TableBody? ==> KeptBody(h, b, bits).TableBody?
  {
  }

  lemma SeenIsString(h: Objects, ts: seq<Id>, s: Id)
    ensures StringSeen(h, ts, s) ==> s in h && h[s].body.StringBody?
  {
  }

  lemma SeenMore(h: Objects, ts: seq<Id>, t: Id, s: Id)
    requires t in h && h[t].body.TableBody? && s in h && h[s].body.StringBody?
    ensures StringSeen(h, ts + [t], s) <==> StringSeen(h, ts, s) || Ref(s) in Seen(h, h[t].body, h[t].weak)
  {
    hide Seen;
    if StringSeen(h, ts, s) {
      var x :| x in ts && x in h && h[x].body.TableBody? && Ref(s) in Seen(h, h[x].body, h[x].weak);
      assert x in ts + [t];
    }
    assert t in ts + [t];
  }

  lemma GoneStays(h: Objects, ts: seq<Id>, h': Objects)
    requires TablesCleared(h, ts, h')
    ensures forall v :: Gone(h', v) == Gone(h, v)
  {
    hide Seen, KeptBody, StringSeen, ClearedAt;
    forall v ensures Gone(h', v) == Gone(h, v) {
      if v.Ref? && v.id in h {
        assert ClearedAt(h, ts, h', v.id);
        GoneAt(h, ts, h', v.id);
      }
    }
  }

  lemma GoneAt(h: Objects, ts: seq<Id>, h': Objects, o: Id)
    requires o in h && o in h' && (o in ts ==> h[o].body.TableBody?) && ClearedAt(h, ts, h', o)
    ensures h'[o].body.StringBody? == h[o].body.StringBody? && (!h[o].body.StringBody? ==> h'[o].color == h[o].color)
  {
  }

  lemma SameSeen(h: Objects, h': Objects, b: Body, bits: Mode)
    requires b.TableBody? && forall v :: Gone(h', v) == Gone(h, v)
    ensures Seen(h', b, bits) == Seen(h, b, bits) && KeptBody(h', b, bits) == KeptBody(h, b, bits)
  {
    assert SeenNodes(h', b.nodes) == SeenNodes(h, b.nodes);
  }

  // A cleared table whose strong references were marked refers to nothing white.
  lemma KeptSettled(h: Objects, b: Body, bits: Mode, h': Objects)
    requires b.TableBody? && Settled(h, b, bits) && Allocated1(h, b)
    requires h'.Keys == h.Keys && (forall o :: o in h && !h[o].color.White? ==> !h'[o].color.White?)
    requires forall s :: s in h && h[s].body.StringBody? && Ref(s) in Seen(h, b, bits) ==> !h'[s].color.White?
    ensures Settled(h', KeptBody(h, b, bits), STRONG)
  {
    var b' := KeptBody(h, b, bits);
    forall r | Ref(r) in Marks(b', STRONG) ensures r in h' && !h'[r].color.White? {
      KeptRef(h, b, bits, r);
    }
  }

  ghost predicate Allocated1(h: Objects, b: Body) {
    forall r :: Refers(b, r) ==> r in h
  }

  // Every reference that is left was marked as strong, or looked at and kept.
  lemma KeptRef(h: Objects, b: Body, bits: Mode, r: Id)
    requires b.TableBody? && Ref(r) in Marks(KeptBody(h, b, bits), STRONG) && Allocated1(h, b)
    ensures r in h
    ensures Ref(r) in Marks(b, bits) || (Ref(r) in Seen(h, b, bits) && !Gone(h, Ref(r)))
  {
    hide Seen, Marks, KeptBody, Reversed;
    var b' := KeptBody(h, b, bits);
    KeptParts(h, b, bits);
    TableMarks(b', STRONG, r);
    TableMarks(b, STRONG, r);
    TableMarks(b, bits, r);
    if Ref(r) in b'.items {
      var i :| 0 <= i < |b'.items| && b'.items[i] == Ref(r);
      assert b.items[i] == Ref(r);
      SeenItems(h, b, bits, r);
    } else if b.metatable != Ref(r) {
      var j :| 0 <= j < 2 * |b'.nodes| && NodeMarks(b'.nodes, STRONG)[j] == Ref(r);
      KeptNodeRef(h, b, bits, r, j);
    }
    assert Refers(b, r);
  }

  lemma KeptParts(h: Objects, b: Body, bits: Mode)
    requires b.TableBody?
    ensures var b' := KeptBody(h, b, bits);
            && b'.TableBody? && b'.metatable == b.metatable && |b'.items| == |b.items| && |b'.nodes| == |b.nodes|
            && (forall i :: 0 <= i < |b.items| ==>
              b'.items[i] == if bits.values then KeptValue(h, b.items[i]) else b.items[i])
            && (forall i :: 0 <= i < |b.nodes| ==> b'.nodes[i] == KeptNode(h, b.nodes[i]))
  {
  }

  lemma TableMarks(b: Body, m: Mode, r: Id)
    requires b.TableBody?
    ensures Ref(r) in Marks(b, m) <==>
            b.metatable == Ref(r) || (!m.values && Ref(r) in b.items) || Ref(r) in NodeMarks(b.nodes, m)
  {
    var items := if m.values then [] else Reversed(b.items);
    assert Marks(b, m) == [b.metatable] + items + NodeMarks(b.nodes, m);
    ReversedIn(b.items, Ref(r));
  }

  lemma ReversedIn(vs: seq<Value>, v: Value)
    ensures v in Reversed(vs) <==> v in vs
  {
    if v in vs {
      var i :| 0 <= i < |vs| && vs[i] == v;
      assert Reversed(vs)[|vs| - 1 - i] == v;
    }
  }

  lemma SeenItems(h: Objects, b: Body, bits: Mode, r: Id)
    requires b.TableBody?
    ensures Ref(r) in Seen(h, b, bits) <==> (bits.values && Ref(r) in b.items) || Ref(r) in SeenNodes(h, b.nodes)
  {
    ReversedIn(b.items, Ref(r));
  }

  lemma KeptNodeRef(h: Objects, b: Body, bits: Mode, r: Id, j: nat)
    requires b.TableBody? && j < 2 * |b.nodes|
    requires NodeMarks(KeptBody(h, b, bits).nodes, STRONG)[j] == Ref(r)
    ensures Ref(r) in NodeMarks(b.nodes, STRONG) && Ref(r) in Seen(h, b, bits) && !Gone(h, Ref(r))
  {
    hide Seen, KeptBody;
    KeptParts(h, b, bits);
    var n := b.nodes[|b.nodes| - 1 - j / 2];
    assert KeptNode(h, n) == n && !n.val.Nil? && !Gone(h, n.key) && !Gone(h, n.val);
    assert NodeMarks(b.nodes, STRONG)[j] == Ref(r);
    assert SeenNodes(h, b.nodes)[j] == Ref(r);
    SeenItems(h, b, bits, r);
  }

  // Values other than strings add nothing to what is marked.
  lemma NothingMarked(h: Objects, vs: seq<Value>, h': Objects)
    requires StringsMarked(h, vs, h')
    ensures StringsMarked(h, vs + [Nil], h')
  {
  }

  lemma NoneMarked(h: Objects)
    ensures StringsMarked(h, [], h)
  {
  }

  lemma StringsJoined(h: Objects, vs: seq<Value>, h1: Objects, ns: seq<Node>, h2: Objects)
    requires StringsMarked(h, vs, h1) && StringsMarked(h1, SeenNodes(h1, ns), h2)
    ensures StringsMarked(h, vs + SeenNodes(h, ns), h2)
  {
    StringsGone(h, vs, h1);
    assert SeenNodes(h1, ns) == SeenNodes(h, ns);
  }

  lemma StringsKeep(h: Objects, vs: seq<Value>, h': Objects, t: Id)
    requires StringsMarked(h, vs, h') && t in h && h[t].body.TableBody?
    ensures t in h' && h'[t] == h[t]
  {
  }

  lemma KeptFrom(h: Objects, b: Body, bits: Mode, vs: seq<Value>, h1: Objects, items: seq<Value>, nodes: seq<Node>)
    requires b.TableBody? && StringsMarked(h, vs, h1) && |items| == |b.items| && |nodes| == |b.nodes|
    requires if bits.values then
             forall j :: 0 <= j < |items| ==> items[j] == KeptValue(h, b.items[j]) else items == b.items
    requires forall j :: 0 <= j < |nodes| ==> nodes[j] == KeptNode(h1, b.nodes[j])
    ensures b.(items := items, nodes := nodes) == KeptBody(h, b, bits)
  {
    StringsGone(h, vs, h1);
    var kept := KeptBody(h, b, bits);
    assert kept.items == items && kept.nodes == nodes;
  }

  lemma EntriesAllocated(h: Objects, t: Id)
    requires t in h && h[t].body.TableBody? && Allocated(h)
    ensures var b := h[t].body;
            && (forall v :: v in b.items && v.Ref? ==> v.id in h)
            && (forall n :: n in b.nodes && !n.val.Nil? ==>
              (n.key.Ref? ==> n.key.id in h) && (n.val.Ref? ==> n.val.id in h))
  {
    hide Marks;
    var b := h[t].body;
    forall v | v in b.items && v.Ref? ensures v.id in h {
      TableMarks(b, STRONG, v.id);
      assert Refers(b, v.id);
    }
    forall n | n in b.nodes && !n.val.Nil?
      ensures (n.key.Ref? ==> n.key.id in h) && (n.val.Ref? ==> n.val.id in h)
    {
      var i :| 0 <= i < |b.nodes| && b.nodes[i] == n;
      var j := 2 * (|b.nodes| - 1 - i);
      assert NodeMarks(b.nodes, STRONG)[j] == n.key && NodeMarks(b.nodes, STRONG)[j + 1] == n.val;
      if n.key.Ref? { TableMarks(b, STRONG, n.key.id); assert Refers(b, n.key.id); }
      if n.val.Ref? { TableMarks(b, STRONG, n.val.id); assert Refers(b, n.val.id); }
    }
  }

  // Clearing leaves only references of before.
  lemma ClearedAllocated(h: Objects, ts: seq<Id>, h': Objects)
    requires TablesCleared(h, ts, h') && Allocated(h)
    ensures Allocated(h')
  {
    hide KeptBody, StringSeen, Marks;
    forall o, r | o in h' && Refers(h'[o].body, r) ensures r in h' {
      assert ClearedAt(h, ts, h', o);
      if o in ts {
        KeptRef(h, h[o].body, h[o].weak, r);
      } else {
        assert Refers(h[o].body, r);
      }
    }
  }

  // When nothing is left to propagate and the weak tables are cleared, no
  // marked object refers to a white one, not even weakly.
  lemma ClearedClosed(h: Objects, w: bool, again: seq<Id>, weak: seq<Id>, h': Objects)
    requires Tricolour(h, w, [], again, weak, -1) && WeakSettled(h, weak) && ThreadsSettled(h, again) && Allocated(h)
    requires TablesCleared(h, weak, h')
    ensures NonwhiteClosed(h')
  {
    hide KeptBody, StringSeen, Marks, Settled, ModeOf, ClearedAt, Seen;
    forall o, r | o in h' && !h'[o].color.White? && Refers(h'[o].body, r) ensures r in h' && !h'[r].color.White? {
      assert ClearedAt(h, weak, h', o);
      MarkedStays(h, weak, h', o, r);
      if o in weak {
        WeakRefs(h, weak, h', o);
        SettledAt(h', h'[o].body, STRONG, r);
      } else {
        NonwhiteSettled(h, w, again, weak, o);
        SettledAt(h, h[o].body, STRONG, r);
        assert ClearedAt(h, weak, h', r);
        MarkedStays(h, weak, h', r, r);
      }
    }
  }

  lemma SettledAt(h: Objects, b: Body, m: Mode, r: Id)
    requires Settled(h, b, m) && Ref(r) in Marks(b, m)
    ensures r in h && !h[r].color.White?
  {
  }

  // Objects outside the cleared tables keep what they hold; only strings, which refer to nothing, are newly marked.
  lemma MarkedStays(h: Objects, ts: seq<Id>, h': Objects, o: Id, r: Id)
    requires o in h && o in h' && (o in ts ==> h[o].body.TableBody?) && ClearedAt(h, ts, h', o)
    ensures !h[o].color.White? ==> !h'[o].color.White?
    ensures o !in ts ==> h'[o].body == h[o].body
    ensures o !in ts && !h'[o].color.White? && Refers(h'[o].body, r) ==> !h[o].color.White?
  {
  }

  lemma NonwhiteSettled(h: Objects, w: bool, again: seq<Id>, weak: seq<Id>, o: Id)
    requires Tricolour(h, w, [], again, weak, -1) && WeakSettled(h, weak) && ThreadsSettled(h, again)
    requires o in h && !h[o].color.White? && o !in weak
    ensures Settled(h, h[o].body, STRONG)
  {
    if h[o].body.StringBody? { StringSettled(h, h[o].body); }
  }

  lemma StringSettled(h: Objects, b: Body)
    requires b.StringBody?
    ensures Settled(h, b, STRONG)
  {
  }

  lemma WeakRefs(h: Objects, ts: seq<Id>, h': Objects, t: Id)
    requires WeakSettled(h, ts) && TablesCleared(h, ts, h') && Allocated(h) && t in ts
    ensures t in h' && Settled(h', h'[t].body, STRONG)
  {
    hide KeptBody, Marks, Settled, ModeOf, Seen;
    var b, bits := h[t].body, h[t].weak;
    assert ClearedAt(h, ts, h', t);
    forall o | o in h && !h[o].color.White? ensures !h'[o].color.White? { assert ClearedAt(h, ts, h', o); }
    forall s | s in h && h[s].body.StringBody? && Ref(s) in Seen(h, b, bits) ensures !h'[s].color.White? {
      assert ClearedAt(h, ts, h', s);
      assert StringSeen(h, ts, s);
    }
    KeptSettled(h, b, bits, h');
  }

  lemma NoneCleared(h: Objects)
    ensures TablesCleared(h, [], h)
  {
  }
}
