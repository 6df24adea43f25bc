// The incremental collector: one step at a time, with the mutator in between.
module Collector {
  import opened Heap
  import opened Marking
  import opened Sweeping
  import opened WeakTables
  import opened Garbage

  datatype Phase = Pause | Propagate | SweepString | Sweep | Finalize

  const GCSWEEPMAX := 40

  // What can happen in a run: collector steps and whole collections, and the
  // mutator creating objects and storing references, which it can only reach
  // by following references from the roots.
  datatype Op =
    | Step
    | Collect
    | Create(address: Id, from: seq<seq<nat>>, make: seq<Value> -> Body)
    | CreateString(address: Id, hash: nat)
    | Intern(address: Id)
    | Store(target: seq<nat>, source: seq<nat>, edit: (Body, Value) -> Body)
    | Switch(thread: seq<nat>)
    | Metatables(paths: seq<seq<nat>>)

  // Whether an operation gives an address to a new object.
  predicate Makes(op: Op) { op.Create? || op.CreateString? }

  class GlobalState {
    var heap: Objects
    var currentwhite: bool
    var phase: Phase
    var strt: seq<seq<Id>>
    var sweepstrgc: nat
    var rootgc: seq<Id>
    var sweepgc: nat
    var gray: seq<Id>
    var grayagain: seq<Id>
    var weak: seq<Id>
    const mainthread: Id
    const registry: Value
    var mt: seq<Value>
    var running: Id

    // ---------- marking ----------

    method ReallyMarkObject(o: Id, ghost c: iset<Id>)
      requires o in heap && heap[o].color.White? && Allocated(heap) && Encloses(heap, c) && o in c
      modifies this`heap, this`gray
      ensures Marked(old(heap), old(gray), heap, gray, c)
      ensures !heap[o].color.White?
      decreases |Whites(heap)|, 0, 1
    {
      ghost var h, g := heap, gray;
      hide Marked, Allocated, Encloses;
      heap := Colored(heap, o, Gray);
      match heap[o].body {
        case StringBody(_) =>
          MarkedAlone(h, g, o, c);
        case UserdataBody(metatable, env) =>
          heap := Colored(heap, o, Black);
          MarkContents(o, [metatable, env], h, g, c);
          assert Colored(heap, o, Black) == heap;
        case UpvalBody(value) =>
          MarkContents(o, [value], h, g, c);
          heap := Colored(heap, o, Black);
        case _ =>
          gray := [o] + gray;
          MarkedAlone(h, g, o, c);
      }
    }

    // Marks what userdata or an upvalue refers to.
    method MarkContents(o: Id, vs: seq<Value>, ghost h: Objects, ghost g: seq<Id>, ghost c: iset<Id>)
      requires o in h && h[o].color.White? && Allocated(h) && Encloses(h, c) && o in c
      requires (h[o].body.UserdataBody? || h[o].body.UpvalBody?) && vs == Marks(h[o].body, STRONG)
      requires o in heap && !heap[o].color.White? && heap == Colored(h, o, heap[o].color) && gray == g
      modifies this`heap, this`gray
      ensures o in heap && Marked(h, g, Colored(heap, o, Black), gray, c) && heap[o].color == old(heap[o].color)
      decreases |Whites(h)|, 0, 0
    {
      ghost var color := heap[o].color;
      ColoredKeeps(h, o, color);
      ProgressKeeps(h, heap);
      forall r | Ref(r) in vs ensures r in heap && r in c {
        assert Refers(h[o].body, r) && Ref(r) in MarkedBy(h, h[o].body);
      }
      MarkAll(vs, c);
      MarkedWhole(h, g, o, color, heap, gray, c);
    }

    method MarkValue(v: Value, ghost c: iset<Id>)
      requires Allocated(heap) && Encloses(heap, c) && (v.Ref? ==> v.id in heap && v.id in c)
      modifies this`heap, this`gray
      ensures Marked(old(heap), old(gray), heap, gray, c)
      ensures v.Ref? ==> !heap[v.id].color.White?
      decreases |Whites(heap)|, 1
    {
      MarkedNothing(heap, gray, c);
      if v.Ref? && heap[v.id].color.White? {
        ReallyMarkObject(v.id, c);
      }
    }

    method MarkAll(vs: seq<Value>, ghost c: iset<Id>)
      requires Allocated(heap) && Encloses(heap, c) && forall r :: Ref(r) in vs ==> r in heap && r in c
      modifies this`heap, this`gray
      ensures Marked(old(heap), old(gray), heap, gray, c)
      ensures forall r :: Ref(r) in vs ==> !heap[r].color.White?
      decreases |Whites(heap)|, 2
    {
      hide Pushed, Chosen;
      ghost var h, g := heap, gray;
      var i := 0;
      MarkedNothing(heap, gray, c);
      while i < |vs|
        invariant 0 <= i <= |vs|
        invariant Marked(h, g, heap, gray, c)
        invariant forall r :: Ref(r) in vs[..i] ==> !heap[r].color.White?
      {
        ProgressKeeps(h, heap);
        ghost var h1, g1 := heap, gray;
        assert vs[i] in vs;
        MarkValue(vs[i], c);
        MarkedMore(h, g, h1, g1, heap, gray, c);
        assert vs[..i + 1] == vs[..i] + [vs[i]];
        i := i + 1;
      }
      assert vs[..i] == vs;
    }

    // ---------- propagation ----------

    method PropagateMark(ghost c: iset<Id>)
      requires Tricolour(heap, currentwhite, gray, grayagain, weak, -1) && Allocated(heap) && gray != []
      requires Encloses(heap, c) && Covered(heap, c)
      modifies this`heap, this`gray, this`grayagain, this`weak
      ensures Tricolour(heap, currentwhite, gray, grayagain, weak, -1)
      ensures Progress(old(heap), heap) && Covered(heap, c)
      ensures Work(heap, gray) < old(Work(heap, gray))
      ensures old(WeakSettled(heap, weak)) ==> WeakSettled(heap, weak)
      ensures old(ThreadsSettled(heap, grayagain)) ==> ThreadsSettled(heap, grayagain)
      ensures old(BlackStrong(heap)) ==> BlackStrong(heap)
    {
      hide Tricolour, Allocated, Encloses, Marks, ModeOf, Whites, Settled, WeakSettled, ThreadsSettled, BlackStrong,
           Marked;
      ghost var h, again, w := heap, grayagain, weak;
      GrayHead(heap, currentwhite, gray, grayagain, weak);
      var o := gray[0];
      var m := ModeOf(heap, heap[o].body);
      TakeGray(m);
      ghost var h1, g1 := heap, gray;
      ProgressKeeps(h, h1);
      MarkedRefs(h, o, m, c);
      MarkAll(Marks(heap[o].body, m), c);
      MarkedKeepsTricolour(h1, currentwhite, g1, grayagain, weak, o, heap, gray, c);
      MarkedWork(h1, g1, heap, gray, c);
      MarkedParts(h1, g1, heap, gray, c);
      ghost var h2 := heap;
      ProgressKeeps(h1, h2);
      assert Settled(h2, h2[o].body, m) by { SettledWhen(h2, h2[o].body, m); }
      if heap[o].body.TableBody? && m != STRONG {
        heap := Colored(heap, o, Gray);
      }
      if BlackStrong(h) {
        BlackStrongTaken(h, o, m, h1, again, grayagain, w, weak);
        BlackStrongMarked(h1, g1, h2, gray, c, m, o, heap);
      }
      Traversed(h, again, w, h1, h2, heap, o, m, gray, grayagain, weak, currentwhite, c);
    }

    // Takes the first gray object; weak tables and threads go to the lists of the atomic phase.
    method TakeGray(m: Mode)
      requires Tricolour(heap, currentwhite, gray, grayagain, weak, -1) && gray != [] && gray[0] in heap
      requires m == ModeOf(heap, heap[gray[0]].body)
      modifies this`heap, this`gray, this`grayagain, this`weak
      ensures var o := old(gray[0]);
              && gray == old(gray)[1..] && Tricolour(heap, currentwhite, gray, grayagain, weak, o)
              && Progress(old(heap), heap)
                && TakenFrom(old(heap), o, m, heap, old(grayagain), grayagain, old(weak), weak)
      ensures Work(heap, gray) < old(Work(heap, gray))
    {
      hide Tricolour;
      GrayHead(heap, currentwhite, gray, grayagain, weak);
      var o := gray[0];
      if heap[o].body.TableBody? {
        TableTaken(heap, currentwhite, gray, grayagain, weak, m);
        heap := Taken(heap, o, m);
        if m != STRONG { weak := [o] + weak; }
      } else {
        ObjectTaken(heap, currentwhite, gray, grayagain, weak);
        if heap[o].body.ThreadBody? {
          grayagain := [o] + grayagain;
        } else {
          heap := Colored(heap, o, Black);
        }
      }
      TakenWork(old(heap), gray, heap);
      gray := gray[1..];
    }

    method PropagateAll(ghost c: iset<Id>)
      requires Tricolour(heap, currentwhite, gray, grayagain, weak, -1) && Allocated(heap)
      requires Encloses(heap, c) && Covered(heap, c)
      modifies this`heap, this`gray, this`grayagain, this`weak
      ensures Tricolour(heap, currentwhite, gray, grayagain, weak, -1) && gray == []
      ensures Progress(old(heap), heap) && Covered(heap, c)
      ensures old(WeakSettled(heap, weak)) ==> WeakSettled(heap, weak)
      ensures old(ThreadsSettled(heap, grayagain)) ==> ThreadsSettled(heap, grayagain)
      ensures old(BlackStrong(heap)) ==> BlackStrong(heap)
    {
      hide Tricolour, Allocated, Encloses, Whites, WeakSettled, ThreadsSettled, BlackStrong, Covered, Work;
      while gray != []
        invariant Tricolour(heap, currentwhite, gray, grayagain, weak, -1) && Allocated(heap)
        invariant Encloses(heap, c) && Covered(heap, c) && Progress(old(heap), heap)
        invariant old(WeakSettled(heap, weak)) ==> WeakSettled(heap, weak)
        invariant old(ThreadsSettled(heap, grayagain)) ==> ThreadsSettled(heap, grayagain)
        invariant old(BlackStrong(heap)) ==> BlackStrong(heap)
        decreases Work(heap, gray)
      {
        ghost var h := heap;
        PropagateMark(c);
        ProgressKeeps(h, heap);
      }
    }

    // ---------- clearing weak tables ----------

    method IsCleared(v: Value) returns (gone: bool)
      requires v.Ref? ==> v.id in heap
      modifies this`heap
      ensures gone == Gone(old(heap), v) && StringsMarked(old(heap), [v], heap)
    {
      if !v.Ref? {
        return false;
      }
      if heap[v.id].body.StringBody? {
        if heap[v.id].color.White? {
          heap := Colored(heap, v.id, Gray);
        }
        return false;
      }
      return heap[v.id].color.White?;
    }

    method ClearItems(items: seq<Value>) returns (kept: seq<Value>)
      requires forall v :: v in items && v.Ref? ==> v.id in heap
      modifies this`heap
      ensures StringsMarked(old(heap), Reversed(items), heap)
      ensures |kept| == |items| && heap.Keys == old(heap).Keys
      ensures forall j :: 0 <= j < |items| ==> kept[j] == KeptValue(old(heap), items[j])
    {
      hide StringsMarked, Gone;
      ghost var h, seen := heap, [];
      kept := items;
      var i := |items|;
      NoneMarked(heap);
      while i > 0
        invariant 0 <= i <= |kept| == |items| && seen == Reversed(items)[..|items| - i] && heap.Keys == h.Keys
        invariant StringsMarked(h, seen, heap)
        invariant forall j :: 0 <= j < |items| ==> kept[j] == if j < i then items[j] else KeptValue(h, items[j])
      {
        i := i - 1;
        ghost var h1 := heap;
        StringsGone(h, seen, heap);
        assert items[i] in items;
        var gone := IsCleared(kept[i]);
        StringsMore(h, seen, h1, items[i], heap);
        seen := seen + [items[i]];
        if gone { kept := kept[i := Nil]; }
      }
      assert seen == Reversed(items);
    }

    method ClearNodes(nodes: seq<Node>) returns (kept: seq<Node>)
      requires forall n :: n in nodes && !n.val.Nil? ==>
                 (n.key.Ref? ==> n.key.id in heap) && (n.val.Ref? ==> n.val.id in heap)
      modifies this`heap
      ensures StringsMarked(old(heap), SeenNodes(old(heap), nodes), heap)
      ensures |kept| == |nodes| && forall j :: 0 <= j < |nodes| ==> kept[j] == KeptNode(old(heap), nodes[j])
    {
      hide StringsMarked, Gone;
      ghost var h, seen := heap, [];
      kept := nodes;
      var i := |nodes|;
      NoneMarked(heap);
      while i > 0
        invariant 0 <= i <= |kept| == |nodes| && seen == SeenNodes(h, nodes)[..2 * (|nodes| - i)] && heap.Keys == h.Keys
        invariant StringsMarked(h, seen, heap)
        invariant forall j :: 0 <= j < |nodes| ==> kept[j] == if j < i then nodes[j] else KeptNode(h, nodes[j])
      {
        i := i - 1;
        assert nodes[i] in nodes;
        var n := kept[i];
        var gone := ClearEntry(n, h, seen);
        if gone { kept := kept[i := Node(n.key, Nil)]; }
        assert SeenNodes(h, nodes)[..2 * (|nodes| - i)] == seen + SeenEntry(h, n);
        seen := seen + SeenEntry(h, n);
      }
      assert seen == SeenNodes(h, nodes);
    }

    // Whether an entry goes: the value is looked at only when the key stays.
    method ClearEntry(n: Node, ghost h: Objects, ghost seen: seq<Value>) returns (gone: bool)
      requires !n.val.Nil? ==> (n.key.Ref? ==> n.key.id in heap) && (n.val.Ref? ==> n.val.id in heap)
      requires StringsMarked(h, seen, heap)
      modifies this`heap
      ensures StringsMarked(h, seen + SeenEntry(h, n), heap) && heap.Keys == h.Keys
      ensures gone == (!n.val.Nil? && (Gone(h, n.key) || Gone(h, n.val)))
    {
      if n.val.Nil? {
        NothingMarked(h, seen, heap);
        NothingMarked(h, seen + [Nil], heap);
        assert seen + SeenEntry(h, n) == seen + [Nil] + [Nil];
        return false;
      }
      StringsGone(h, seen, heap);
      ghost var h1 := heap;
      gone := IsCleared(n.key);
      StringsMore(h, seen, h1, n.key, heap);
      if gone {
        NothingMarked(h, seen + [n.key], heap);
      } else {
        StringsGone(h, seen + [n.key], heap);
        ghost var h2 := heap;
        gone := IsCleared(n.val);
        StringsMore(h, seen + [n.key], h2, n.val, heap);
      }
      assert seen + SeenEntry(h, n) == seen + [n.key] + [if Gone(h, n.key) then Nil else n.val];
    }

    method ClearTable(t: Id) returns (ghost marked: Objects)
      requires t in heap && heap[t].body.TableBody? && Allocated(heap)
      modifies this`heap
      ensures var h := old(heap);
              var b := KeptBody(h, h[t].body, h[t].weak);
              StringsMarked(h, Seen(h, h[t].body, h[t].weak), marked) && heap == marked[t := marked[t].(body := b)]
    {
      hide StringsMarked, KeptBody, Allocated, SeenNodes;
      ghost var h := heap;
      var b := heap[t].body;
      EntriesAllocated(heap, t);
      var items := b.items;
      NoneMarked(heap);
      if heap[t].weak.values {
        items := ClearItems(b.items);
      }
      ghost var h1 := heap;
      assert h1.Keys == h.Keys;
      var nodes := ClearNodes(b.nodes);
      ghost var vs := if h[t].weak.values then Reversed(b.items) else [];
      StringsJoined(h, vs, h1, b.nodes, heap);
      StringsKeep(h, vs + SeenNodes(h, b.nodes), heap, t);
      KeptFrom(h, b, h[t].weak, vs, h1, items, nodes);
      marked := heap;
      heap := heap[t := heap[t].(body := b.(items := items, nodes := nodes))];
    }

    method ClearTables()
      requires Allocated(heap) && Distinct(weak) && forall t :: t in weak ==> t in heap && heap[t].body.TableBody?
      modifies this`heap
      ensures TablesCleared(old(heap), weak, heap)
    {
      hide Allocated, KeptBody, Seen, StringSeen, ClearedAt, Distinct;
      ghost var h := heap;
      var i := 0;
      NoneCleared(heap);
      while i < |weak|
        invariant 0 <= i <= |weak| && Allocated(heap)
        invariant TablesCleared(h, weak[..i], heap)
      {
        var t := weak[i];
        FreshInList(weak, i);
        ghost var h1 := heap;
        assert ClearedAt(h, weak[..i], h1, t);
        ClearedTable(h, weak[..i], h1, t);
        ghost var marked := ClearTable(t);
        ClearedMore(h, weak[..i], h1, t, marked, heap);
        assert weak[..i + 1] == weak[..i] + [t];
        ClearedAllocated(h, weak[..i + 1], heap);
        i := i + 1;
      }
      assert weak[..i] == weak;
    }

    // ---------- the mark phase ----------

    function Roots(): seq<Value>
      reads this`mt, this`running
    {
      [Ref(mainthread), Ref(running), registry] + mt
    }

    method MarkRoot(ghost c: iset<Id>)
      requires Allocated(heap) && Encloses(heap, c) && RootsIn(heap, Roots(), c)
      requires forall o :: o in heap ==> heap[o].color == White(currentwhite)
      modifies this`heap, this`gray, this`grayagain, this`weak, this`phase
      ensures phase == Propagate && Tricolour(heap, currentwhite, gray, grayagain, weak, -1)
      ensures Progress(old(heap), heap) && Covered(heap, c) && BlackStrong(heap)
      ensures RootsMarked(heap, [Ref(mainthread), registry])
    {
      hide Tricolour, Allocated, Encloses, BlackStrong, Marked;
      gray, grayagain, weak := [], [], [];
      ghost var h := heap;
      NothingMarkedYet(heap, currentwhite);
      var globals := if heap[mainthread].body.ThreadBody? then heap[mainthread].body.globals else Nil;
      GlobalsFollow(heap, mainthread, c);
      RootsSeq(mainthread, running, registry, mt);
      ghost var vs := [Ref(mainthread), globals, registry] + mt;
      assert vs[0] == Ref(mainthread) && vs[2] == registry;
      MarkAll([Ref(mainthread), globals, registry] + mt, c);
      MarkedKeepsTricolour(h, currentwhite, [], [], [], -1, heap, gray, c);
      MarkedParts(h, [], heap, gray, c);
      MarkedBlackStrong(h, [], heap, gray, c);
      phase := Propagate;
    }

    // Finishes the marking without interruption, clears the weak tables and
    // dooms what is still white. Returns the heap as marked and the tables cleared.
    method Atomic(ghost c: iset<Id>) returns (ghost marked: Objects, ghost cleared: seq<Id>)
      requires Tricolour(heap, currentwhite, gray, grayagain, weak, -1) && Allocated(heap)
      requires Encloses(heap, c) && Covered(heap, c) && RootsIn(heap, Roots(), c)
      requires RootsMarked(heap, [Ref(mainthread), registry])
      modifies this`heap, this`gray, this`grayagain, this`weak, this`phase, this`currentwhite, this`sweepstrgc,
          this`sweepgc
      ensures currentwhite != old(currentwhite) && phase == SweepString && sweepstrgc == 0 && sweepgc == 0
      ensures forall o :: o in heap ==> heap[o].color != White(currentwhite)
      ensures NonwhiteClosed(heap) && RootsMarked(heap, Roots())
      ensures MarkedUp(old(heap), Roots(), c, marked, cleared, heap)
    {
      hide Tricolour, Allocated, Encloses, Covered, Work, Settled, WeakSettled, ThreadsSettled, BlackStrong, Marks,
           ModeOf, TablesCleared, Progress, Roots, RootsMarked, RootsIn;
      ghost var h := heap;
      MarkTheRest(c);
      marked, cleared := heap, weak;
      StaysEnclosed(h, heap, c);
      WeakListed(heap, currentwhite, grayagain, weak);
      ClearTables();
      MarkingOver(h, currentwhite, Roots(), c, marked, grayagain, weak, heap);
      currentwhite := !currentwhite;
      sweepstrgc, sweepgc := 0, 0;
      phase := SweepString;
    }

    // The marking part of the atomic step: what the barriers caught, the weak
    // tables and roots again, and the threads and tables put off.
    method MarkTheRest(ghost c: iset<Id>)
      requires Tricolour(heap, currentwhite, gray, grayagain, weak, -1) && Allocated(heap)
      requires Encloses(heap, c) && Covered(heap, c) && RootsIn(heap, Roots(), c)
      requires RootsMarked(heap, [Ref(mainthread), registry])
      modifies this`heap, this`gray, this`grayagain, this`weak
      ensures Tricolour(heap, currentwhite, [], grayagain, weak, -1) && WeakSettled(heap, weak)
              && ThreadsSettled(heap, grayagain)
      ensures Progress(old(heap), heap) && Covered(heap, c)
      ensures RootsMarked(heap, Roots())
      ensures old(BlackStrong(heap)) ==> BlackStrong(heap)
    {
      hide Tricolour, Allocated, Encloses, Covered, WeakSettled, ThreadsSettled, BlackStrong, Progress, Roots;
      ghost var h := heap;
      PropagateToWeak(c);
      ghost var h1 := heap;
      MarkRootsAgain(c);
      ghost var h2 := heap;
      StaysEnclosed(h1, h2, c);
      NoneSettled(heap);
      PropagateAll(c);
      StaysEnclosed(h2, heap, c);
      GrayAgain(heap, currentwhite, grayagain, weak);
      gray, grayagain := grayagain, [];
      ghost var h3 := heap;
      PropagateAll(c);
      ProgressTwice(h2, h3, heap);
      RootsStay(h2, heap, Roots());
      ProgressTwice(h, h1, h2);
      ProgressTwice(h, h2, heap);
    }

    // Propagates what the barriers caught; the weak tables are gray next.
    method PropagateToWeak(ghost c: iset<Id>)
      requires Tricolour(heap, currentwhite, gray, grayagain, weak, -1) && Allocated(heap)
      requires Encloses(heap, c) && Covered(heap, c) && RootsIn(heap, Roots(), c)
      requires RootsMarked(heap, [Ref(mainthread), registry])
      modifies this`heap, this`gray, this`grayagain, this`weak
      ensures Tricolour(heap, currentwhite, gray, grayagain, weak, -1) && weak == [] && Allocated(heap)
      ensures Progress(old(heap), heap) && Encloses(heap, c) && Covered(heap, c) && RootsIn(heap, Roots(), c)
      ensures RootsMarked(heap, [Ref(mainthread), registry])
      ensures old(BlackStrong(heap)) ==> BlackStrong(heap)
    {
      hide Tricolour, Allocated, Encloses, Covered, WeakSettled, ThreadsSettled, BlackStrong, Progress, Roots;
      ghost var h := heap;
      PropagateAll(c);
      StaysEnclosed(h, heap, c);
      RootsStay(h, heap, [Ref(mainthread), registry]);
      RootsStay(h, heap, Roots());
      WeakAgain(heap, currentwhite, grayagain, weak);
      gray, weak := weak, [];
    }

    // Marks the running thread and the basic metatables.
    method MarkRootsAgain(ghost c: iset<Id>)
      requires Tricolour(heap, currentwhite, gray, grayagain, weak, -1) && Allocated(heap)
      requires Encloses(heap, c) && Covered(heap, c) && RootsIn(heap, Roots(), c)
      requires RootsMarked(heap, [Ref(mainthread), registry])
      modifies this`heap, this`gray
      ensures Tricolour(heap, currentwhite, gray, grayagain, weak, -1)
      ensures Progress(old(heap), heap) && Covered(heap, c)
      ensures RootsMarked(heap, Roots())
      ensures old(BlackStrong(heap)) ==> BlackStrong(heap)
    {
      hide Tricolour, Allocated, Encloses, Covered, BlackStrong, Marked;
      ghost var h, g := heap, gray;
      RootsSeq(mainthread, running, registry, mt);
      RunningSeq(running, mt);
      MarkAll([Ref(running)] + mt, c);
      MarkedKeepsTricolour(h, currentwhite, g, grayagain, weak, -1, heap, gray, c);
      MarkedParts(h, g, heap, gray, c);
      if BlackStrong(h) { MarkedBlackStrong(h, g, heap, gray, c); }
    }

    // ---------- sweeping ----------

    // Sweeps at most count objects of a list from place p on.
    method SweepList(list: seq<Id>, p: nat, count: nat) returns (swept: seq<Id>, q: nat, ghost n: nat)
      requires p <= |list| && Distinct(list) && forall o :: o in list ==> o in heap
      modifies this`heap
      ensures n == (if count < |list| - p then count else |list| - p)
      ensures Swept(old(heap), currentwhite, list[p..p + n], heap)
      ensures forall o :: o in list[p..p + n] ==> o in old(heap)
      ensures var kept := Survivors(old(heap), currentwhite, list[p..p + n]);
              swept == list[..p] + kept + list[p + n..] && q == p + |kept|
    {
      hide Survivors, Swept, SweptUpTo, Distinct, Doomed;
      ghost var h := heap;
      swept, q, n := list, p, 0;
      var left := count;
      NothingSwept(heap, currentwhite, list, p);
      while q < |swept| && left > 0
        invariant 0 <= n <= count && p + n <= |list| && left == count - n
        invariant q <= |swept| && |swept| - q == |list| - (p + n)
        invariant SweptUpTo(h, currentwhite, list, p, n, swept, q, heap)
        decreases left
      {
        SweepNext(h, currentwhite, list, p, n, swept, q, heap);
        var curr := swept[q];
        if !Doomed(heap[curr], currentwhite) {
          heap := Colored(heap, curr, White(currentwhite));
          q := q + 1;
        } else {
          swept := swept[..q] + swept[q + 1..];
          heap := heap - {curr};
        }
        n := n + 1;
        left := left - 1;
      }
      PieceSwept(h, currentwhite, list, p, n, swept, q, heap);
    }

    // ---------- the invariant of every state ----------

    ghost predicate Inv()
      reads this
    {
      InvBut(-1)
    }

    // The invariant while an object whose fields have just changed may be black and refer to a white one.
    ghost predicate InvBut(busy: int)
      reads this
    {
      && Whole(heap)
      && match phase
         case Pause => AllWhite(heap, currentwhite)
         case Propagate =>
           && Tricolour(heap, currentwhite, gray, grayagain, weak, busy)
           && RootsMarked(heap, [Ref(mainthread), registry])
         case SweepString => sweepstrgc < |strt| && sweepgc == 0
           && SweptTo(heap, currentwhite, strt, sweepstrgc, rootgc, 0)
         case Sweep => sweepgc <= |rootgc| && SweptTo(heap, currentwhite, strt, |strt|, rootgc, sweepgc)
         case Finalize => AllWhite(heap, currentwhite)
    }

    // What holds in every phase: all objects are listed, nothing usable refers to anything doomed.
    ghost predicate Whole(h: Objects)
      reads this`strt, this`rootgc, this`currentwhite, this`running, this`mt
    {
      && Chained(h, strt, rootgc) && Closed(h, Roots(), currentwhite) && FixedOk(h, mainthread)
      && mainthread in h && h[mainthread].body.ThreadBody? && running in h && h[running].body.ThreadBody?
    }

    lemma WholeAllocated()
      requires Whole(heap) && forall o :: o in heap ==> heap[o].color != White(!currentwhite)
      ensures Allocated(heap)
    {
      ClosedAllocated(heap, Roots(), currentwhite);
    }

    // Marking keeps it.
    lemma WholeMarked(h: Objects)
      requires Whole(h) && Progress(h, heap)
      requires (forall o :: o in h ==> h[o].color != White(!currentwhite))
               && (forall o :: o in heap ==> heap[o].color != White(!currentwhite))
      ensures Whole(heap) && SameBodies(h, heap)
    {
      hide Chained, Closed, FixedOk, Roots;
      ClosedStays(h, heap, Roots(), currentwhite);
      ProgressBodies(h, heap);
      BodiesKept(h, heap);
      ChainedStays(h, heap, strt, rootgc, mainthread);
    }

    // c bounds what a mark phase may mark.
    ghost predicate Bounds(c: iset<Id>)
      reads this
    {
      phase == Pause || phase == Propagate ==>
        Encloses(heap, c) && Covered(heap, c) && RootsIn(heap, Roots(), c)
    }

    // What one step leaves to do.
    ghost function Remaining(): (nat, int)
      reads this
    {
      match phase
      case Pause => (0, 0)
      case Propagate => (4, |Work(heap, gray)|)
      case SweepString => (3, |strt| - sweepstrgc)
      case Sweep => (2, |rootgc| - sweepgc)
      case Finalize => (1, 0)
    }

    // ---------- one step ----------

    method PropagateStep(ghost c: iset<Id>)
      requires Inv() && phase == Propagate && gray != [] && Bounds(c)
      modifies this`heap, this`gray, this`grayagain, this`weak
      ensures Inv() && Bounds(c) && Progress(old(heap), heap)
      ensures |Work(heap, gray)| < old(|Work(heap, gray)|)
      ensures old(BlackStrong(heap)) ==> BlackStrong(heap)
    {
      hide Whole, Tricolour, Encloses, Covered, BlackStrong, Closed, Chained, Work, Roots, RootsMarked, RootsIn,
           FixedOk;
      ghost var h, g := heap, gray;
      TricolourWhites(heap, currentwhite, gray, grayagain, weak, -1);
      WholeAllocated();
      PropagateMark(c);
      TricolourWhites(heap, currentwhite, gray, grayagain, weak, -1);
      Smaller(Work(heap, gray), Work(h, g));
      StaysEnclosed(h, heap, c);
      RootsStay(h, heap, [Ref(mainthread), registry]);
      RootsStay(h, heap, Roots());
      WholeMarked(h);
    }

    method AtomicStep(ghost c: iset<Id>) returns (ghost marked: Objects, ghost cleared: seq<Id>)
      requires Inv() && phase == Propagate && Bounds(c)
      modifies this`heap, this`gray, this`grayagain, this`weak, this`phase, this`currentwhite, this`sweepstrgc,
          this`sweepgc
      ensures Inv() && phase == SweepString && currentwhite != old(currentwhite)
      ensures MarkedUp(old(heap), Roots(), c, marked, cleared, heap)
      ensures forall o :: o in heap ==> heap[o].color != White(currentwhite)
    {
      hide Tricolour, Encloses, Covered, BlackStrong, Closed, Chained, Work, TablesCleared, Roots, RootsMarked,
           RootsIn, MarkedUp, NonwhiteClosed, Progress, FixedOk;
      ghost var h := heap;
      TricolourWhites(heap, currentwhite, gray, grayagain, weak, -1);
      ClosedAllocated(heap, Roots(), currentwhite);
      RootsHeld();
      marked, cleared := Atomic(c);
      ClearedKinds(h, Roots(), c, marked, cleared, heap);
      ChainedStays(h, heap, strt, rootgc, mainthread);
      RootsHeld();
      FlippedClosed(heap, Roots(), currentwhite, mainthread);
      SomeBuckets(heap, strt, rootgc, currentwhite);
    }

    method StartStep(ghost c: iset<Id>)
      requires Inv() && (phase == Pause || phase == Finalize) && Encloses(heap, c) && RootsIn(heap, Roots(), c)
      modifies this`heap, this`gray, this`grayagain, this`weak, this`phase
      ensures Inv() && phase == Propagate && Bounds(c) && Progress(old(heap), heap) && BlackStrong(heap)
    {
      hide Tricolour, Encloses, Covered, BlackStrong, Closed, Chained, Work, Roots, RootsMarked, RootsIn, FixedOk;
      ghost var h := heap;
      AllAllocated(heap, Roots(), currentwhite);
      RootsHeld();
      MarkRoot(c);
      StaysEnclosed(h, heap, c);
      RootsStay(h, heap, Roots());
      TricolourWhites(heap, currentwhite, gray, grayagain, weak, -1);
      WholeMarked(h);
    }

    method SweepStringStep()
      requires Inv() && phase == SweepString
      modifies this`heap, this`strt, this`sweepstrgc, this`phase
      ensures Inv() && Shrunk(old(heap), currentwhite, heap)
      ensures phase == Sweep || (phase == SweepString && |strt| == |old(strt)| && sweepstrgc > old(sweepstrgc))
    {
      hide Closed, Survivors, Chained, Swept, SweptTo, Shrunk;
      ghost var h := heap;
      var b := sweepstrgc;
      ChainedBucket(heap, strt, rootgc, b);
      RootsHeld();
      var bucket, _, _ := SweepList(strt[b], 0, |strt[b]|);
      assert strt[b][0..0 + |strt[b]|] == strt[b];
      BucketSwept(h, currentwhite, strt, rootgc, b, heap);
      SweptShrinks(h, currentwhite, strt[b], heap, Roots());
      KeptFixed(h, currentwhite, heap, mainthread, Roots());
      KeptFixed(h, currentwhite, heap, running, Roots());
      assert bucket == Survivors(h, currentwhite, strt[b]);
      strt := strt[b := bucket];
      sweepstrgc := sweepstrgc + 1;
      if sweepstrgc >= |strt| {
        phase := Sweep;
      }
    }

    method SweepRootsStep()
      requires Inv() && phase == Sweep
      modifies this`heap, this`rootgc, this`sweepgc, this`phase
      ensures Inv() && Shrunk(old(heap), currentwhite, heap)
      ensures phase == Finalize || (phase == Sweep && |rootgc| - sweepgc < old(|rootgc| - sweepgc))
    {
      hide Closed, Survivors, Chained, Swept, SweptTo, Shrunk, Doomed;
      ghost var h, p := heap, sweepgc;
      ChainedRoots(heap, strt, rootgc, currentwhite, p);
      RootsHeld();
      var list, q, n := SweepList(rootgc, sweepgc, GCSWEEPMAX);
      RootsSwept(h, currentwhite, strt, rootgc, p, n, heap);
      SweptShrinks(h, currentwhite, rootgc[p..p + n], heap, Roots());
      KeptFixed(h, currentwhite, heap, mainthread, Roots());
      KeptFixed(h, currentwhite, heap, running, Roots());
      rootgc, sweepgc := list, q;
      if sweepgc == |rootgc| {
        AllSwept(heap, currentwhite, strt, rootgc);
        phase := Finalize;
      }
    }

    // One step of the collector. c bounds what it may mark; the heap as marked
    // and the weak tables cleared are those of an atomic step.
    method SingleStep(ghost c: iset<Id>) returns (ghost marked: Objects, ghost cleared: seq<Id>)
      requires Inv() && Bounds(c)
      modifies this
      ensures Inv() && running == old(running) && mt == old(mt)
      ensures match old(phase)
              case Pause => phase == Propagate && Bounds(c) && Progress(old(heap), heap) && BlackStrong(heap)
              case Propagate =>
                if phase == Propagate then
                  Bounds(c) && Progress(old(heap), heap) && (old(BlackStrong(heap)) ==> BlackStrong(heap))
                else
                  phase == SweepString && MarkedUp(old(heap), Roots(), c, marked, cleared, heap)
                  && forall o :: o in heap ==> heap[o].color != White(currentwhite)
              case SweepString => (phase == SweepString || phase == Sweep) && Shrunk(old(heap), currentwhite, heap)
              case Sweep => (phase == Sweep || phase == Finalize) && Shrunk(old(heap), currentwhite, heap)
              case Finalize => phase == Pause && heap == old(heap)
      ensures phase == Propagate || old(phase) == Propagate || currentwhite == old(currentwhite)
      ensures old(phase) == Pause || Remaining().0 < old(Remaining()).0
              || (Remaining().0 == old(Remaining()).0 && 0 <= Remaining().1 < old(Remaining()).1)
    {
      hide Chained, Closed, Tricolour, MarkedUp, BlackStrong, SweptTo, Shrunk, AllWhite, Encloses, Covered, RootsIn,
           Progress, RootsMarked, FixedOk;
      marked, cleared := heap, weak;
      match phase {
        case Pause =>
          StartStep(c);
        case Propagate =>
          if gray != [] {
            PropagateStep(c);
          } else {
            marked, cleared := AtomicStep(c);
          }
        case SweepString =>
          SweepStringStep();
        case Sweep =>
          SweepRootsStep();
        case Finalize =>
          phase := Pause;
      }
    }

    // Finishes a pending sweep; before the atomic step, starts one that turns all objects white.
    method FinishSweep()
      requires Inv()
      modifies this
      ensures Inv() && phase == Finalize && currentwhite == old(currentwhite) && Roots() == old(Roots())
      ensures Shrunk(old(heap), currentwhite, heap)
    {
      hide Chained, Closed, Tricolour, MarkedUp, BlackStrong, SweptTo, Shrunk, AllWhite, Encloses, Covered, RootsIn,
           Progress, RootsMarked, FixedOk;
      ghost var h := heap;
      ShrunkNothing(heap, currentwhite);
      if phase == Pause || phase == Propagate {
        SomeBuckets(heap, strt, rootgc, currentwhite);
        sweepstrgc, sweepgc := 0, 0;
        gray, grayagain, weak := [], [], [];
        phase := SweepString;
      }
      while phase != Finalize
        invariant Inv() && phase != Pause && phase != Propagate && Roots() == old(Roots())
        invariant currentwhite == old(currentwhite) && Shrunk(h, currentwhite, heap)
        decreases Remaining().0, Remaining().1
      {
        ghost var h1 := heap;
        var _, _ := SingleStep(iset{});
        ShrunkTwice(h, currentwhite, h1, heap);
      }
    }

    // The state of a cycle that began with heap h0, up to the atomic step and after it.
    ghost predicate InCycle(h0: Objects, c: iset<Id>, marked: Objects, cleared: seq<Id>, after: Objects)
      reads this
    {
      if phase == Propagate then Bounds(c) && Progress(h0, heap) && BlackStrong(heap)
      else
        && MarkedUp(h0, Roots(), c, marked, cleared, after) && Shrunk(after, currentwhite, heap)
        && forall o :: o in after ==> after[o].color != White(currentwhite)
    }

    lemma MainIsReachable(h: Objects)
      ensures StronglyReachable(h, Roots(), mainthread)
    {
      assert Roots()[0] == Ref(mainthread);
      FollowRoot(h, Roots(), mainthread);
    }

    lemma PausedFields(s: iset<Id>)
      requires Inv() && phase == Pause && s == iset o | o in heap
      ensures Intact(s)
    {
      hide FieldsIn, Whole, Intact;
      var alive := iset o | o in heap && !Doomed(heap[o], currentwhite);
      AliveFields(alive);
      assert alive == s;
    }

    // The bodies that survive are as before, but for the entries of tables that referred to what is gone.
    lemma OnlyCleared(h: Objects, hm: Objects, ts: seq<Id>, s: iset<Id>)
      requires Collected(h, Roots(), hm, ts, heap, currentwhite) && Intact(s) && s == iset o | o in heap
      requires FixedOk(h, mainthread) && StronglyReachable(h, Roots(), mainthread)
      ensures forall o :: o in heap ==> o in h && BodyKept(h[o].body, heap, heap[o].body)
    {
      hide StronglyReachable, FieldsIn, Seen, ModeOf;
      forall o | o in heap ensures o in h && BodyKept(h[o].body, heap, heap[o].body) {
        assert FieldsIn(heap[o].body, STRONG, s);
        forall r | r in hm && hm[r].color.White? && !hm[r].body.StringBody? ensures r !in heap {}
        BodyKeptAt(hm, o in ts, hm[o].body, hm[o].weak, heap, heap[o].body, s);
      }
    }

    method CycleStep(ghost h0: Objects, ghost c: iset<Id>, ghost marked: Objects, ghost cleared: seq<Id>,
                     ghost after: Objects)
      returns (ghost marked': Objects, ghost cleared': seq<Id>, ghost after': Objects)
      requires Inv() && phase != Pause && InCycle(h0, c, marked, cleared, after)
      modifies this
      ensures Inv() && Roots() == old(Roots()) && InCycle(h0, c, marked', cleared', after')
      ensures Remaining().0 < old(Remaining()).0
              || (Remaining().0 == old(Remaining()).0 && 0 <= Remaining().1 < old(Remaining()).1)
    {
      hide Chained, Closed, Tricolour, MarkedUp, BlackStrong, SweptTo, Shrunk, AllWhite, Encloses, Covered, RootsIn,
           Progress, RootsMarked, FixedOk;
      marked', cleared', after' := marked, cleared, after;
      ghost var h, before := heap, phase;
      ghost var m, t := SingleStep(c);
      if before == Propagate {
        if phase == Propagate {
          ProgressTwice(h0, h, heap);
        } else {
          marked', cleared', after' := m, t, heap;
          MarkedUpBefore(h0, h, Roots(), c, m, t, heap);
          ShrunkNothing(heap, currentwhite);
        }
      } else if before != Finalize {
        ShrunkTwice(after, currentwhite, h, heap);
      }
    }

    // A whole collection, whatever the collector was doing. Returns the heap as
    // it was when marking ended, and the weak tables cleared.
    method FullGC() returns (ghost marked: Objects, ghost cleared: seq<Id>)
      requires Inv()
      modifies this
      ensures Inv() && phase == Pause && Roots() == old(Roots())
      ensures Collected(old(heap), Roots(), marked, cleared, heap, currentwhite)
      ensures Intact(iset o | o in heap)
      ensures forall o :: o in heap ==> o in old(heap) && BodyKept(old(heap)[o].body, heap, heap[o].body)
    {
      hide Chained, Closed, Tricolour, MarkedUp, BlackStrong, SweptTo, Shrunk, AllWhite, Encloses, Covered, RootsIn,
           Progress, RootsMarked, FixedOk, StronglyReachable, Collected, Remaining, Roots;
      ghost var h, w := heap, currentwhite;
      FinishSweep();
      ghost var h0 := heap;
      ghost var c := iset o | StronglyReachable(h0, Roots(), o);
      ReachableBound(h0, Roots(), w, c);
      StartStep(c);
      marked, cleared := heap, [];
      ghost var after := heap;
      while phase != Pause
        invariant Inv() && Roots() == old(Roots()) && InCycle(h0, c, marked, cleared, after)
        decreases Remaining().0, Remaining().1
      {
        marked, cleared, after := CycleStep(h0, c, marked, cleared, after);
      }
      CollectedAll(h, w, h0, Roots(), c, marked, cleared, after, currentwhite, heap);
      ghost var s := iset o | o in heap;
      PausedFields(s);
      MainIsReachable(h);
      OnlyCleared(h, marked, cleared, s);
    }

    // What a full collection leaves, field by field: nothing refers to what is gone,
    // and only entries of tables have been cleared, those that referred to it.
    method CollectGarbage()
      requires Inv()
      modifies this
      ensures Inv() && phase == Pause && Roots() == old(Roots())
      ensures forall o :: StronglyReachable(old(heap), old(Roots()), o) ==> o in heap
      ensures forall o :: o in heap ==> o in old(heap)
      ensures forall o :: o in heap ==>
                StronglyReachable(old(heap), old(Roots()), o) || old(heap)[o].fixed || heap[o].body.StringBody?
      ensures forall o :: o in heap ==>
                match heap[o].body
                case StringBody(_) => true
                case UserdataBody(mt, env) => (mt.Ref? ==> mt.id in heap) && (env.Ref? ==> env.id in heap)
                case UpvalBody(v) => v.Ref? ==> v.id in heap
                case ClosureBody(env, proto, upvals) =>
                  && (env.Ref? ==> env.id in heap) && (proto.Ref? ==> proto.id in heap)
                  && forall v :: v in upvals && v.Ref? ==> v.id in heap
                case ProtoBody(source, constants, upvalues, protos, locvars) =>
                  && (source.Ref? ==> source.id in heap)
                  && (forall v :: v in constants && v.Ref? ==> v.id in heap)
                  && (forall v :: v in upvalues && v.Ref? ==> v.id in heap)
                  && (forall v :: v in protos && v.Ref? ==> v.id in heap)
                  && forall v :: v in locvars && v.Ref? ==> v.id in heap
                case TableBody(mt, items, nodes, _) =>
                  && (mt.Ref? ==> mt.id in heap) && (forall v :: v in items && v.Ref? ==> v.id in heap)
                  && forall n :: n in nodes && !n.val.Nil? ==>
                       (n.key.Ref? ==> n.key.id in heap) && (n.val.Ref? ==> n.val.id in heap)
                case ThreadBody(globals, stack) =>
                  (globals.Ref? ==> globals.id in heap) && forall v :: v in stack && v.Ref? ==> v.id in heap
      ensures mainthread in heap && running in heap && (registry.Ref? ==> registry.id in heap)
      ensures forall v :: v in mt && v.Ref? ==> v.id in heap
      ensures forall o :: o in heap && !heap[o].body.TableBody? ==> heap[o].body == old(heap)[o].body
      ensures forall o :: o in heap && heap[o].body.TableBody? ==>
                var b, b' := old(heap)[o].body, heap[o].body;
                && b.TableBody? && b'.metatable == b.metatable && b'.mode == b.mode
                && |b'.items| == |b.items| && |b'.nodes| == |b.nodes|
                && (forall i :: 0 <= i < |b.items| ==>
                      b'.items[i] == if b.items[i].Ref? && b.items[i].id !in heap then Nil else b.items[i])
                && forall i :: 0 <= i < |b.nodes| ==>
                     var n := b.nodes[i];
                     b'.nodes[i] ==
                     if !n.val.Nil? && ((n.key.Ref? && n.key.id !in heap) || (n.val.Ref? && n.val.id !in heap))
                     then Node(n.key, Nil) else n
    {
      hide Inv, Roots, StronglyReachable, Collected;
      ghost var h, roots := heap, Roots();
      ghost var marked, cleared;
      marked, cleared := FullGC();
      CollectedKeeps(h, roots, marked, cleared, heap, currentwhite);
    }

    // ---------- the mutator ----------

    method BarrierF(o: Id, v: Id, ghost d: iset<Id>)
      requires InvBut(o) && o in heap && heap[o].color.Black? && !heap[o].body.TableBody?
      requires v in heap && heap[v].color.White? && !Doomed(heap[v], currentwhite) && v !in d && Walled(heap, d)
      requires phase == Propagate ==> o !in gray && o !in grayagain && o !in weak && SettledBut(heap, o, Ref(v))
      modifies this`heap, this`gray
      ensures Inv() && Spared(old(heap), heap, d) && SameBodies(old(heap), heap)
      ensures if phase == Propagate then heap[o].color.Black? && !heap[v].color.White?
              else heap == Colored(old(heap), o, White(currentwhite)) && gray == old(gray)
    {
      hide Whole, Tricolour, SweptTo, AllWhite, RootsMarked, SettledBut, SameBodies, Spared, Walled;
      ghost var h := heap;
      if phase == Propagate {
        MarkStored(o, v, d);
      } else {
        NoBlack(heap, currentwhite);
        heap := Colored(heap, o, White(currentwhite));
        Recolored(h, o, White(currentwhite));
        SparedColored(h, o, White(currentwhite), d);
      }
    }

    // A value stored in a black object is marked, while marking is going on.
    method MarkStored(o: Id, v: Id, ghost d: iset<Id>)
      requires InvBut(o) && o in heap && heap[o].color.Black? && !heap[o].body.TableBody?
      requires v in heap && heap[v].color.White? && !Doomed(heap[v], currentwhite) && v !in d && Walled(heap, d)
      requires phase == Propagate && o !in gray && o !in grayagain && o !in weak && SettledBut(heap, o, Ref(v))
      modifies this`heap, this`gray
      ensures Inv() && Spared(old(heap), heap, d) && SameBodies(old(heap), heap) && heap[o].color.Black?
              && !heap[v].color.White?
    {
      hide Whole, Tricolour, RootsMarked, SettledBut, Marked, SameBodies, Walled, Spared;
      ghost var h, g := heap, gray;
      TricolourWhites(heap, currentwhite, gray, grayagain, weak, o);
      WholeAllocated();
      RestEncloses(heap, d);
      ReallyMarkObject(v, Rest(d));
      MarkedKeepsTricolour(h, currentwhite, g, grayagain, weak, o, heap, gray, Rest(d));
      MarkedParts(h, g, heap, gray, Rest(d));
      TricolourWhites(heap, currentwhite, gray, grayagain, weak, o);
      RootsStay(h, heap, [Ref(mainthread), registry]);
      WholeMarked(h);
      SettledMore(h, heap, o, Ref(v));
      WriteSettled(heap, currentwhite, gray, grayagain, weak, o, Ref(v));
      MarkedSpares(h, g, heap, gray, d);
    }

    method BarrierBack(t: Id)
      requires InvBut(t) && t in heap && heap[t].color.Black? && heap[t].body.TableBody?
      requires phase == Propagate ==> t !in gray && t !in grayagain && t !in weak
      modifies this`heap, this`grayagain
      ensures Inv() && SameBodies(old(heap), heap)
      ensures heap == Colored(old(heap), t, Gray) && grayagain == [t] + old(grayagain)
    {
      hide Whole, Tricolour, SweptTo, AllWhite, RootsMarked, SameBodies;
      ghost var h := heap;
      if phase == Propagate { BackTricolour(heap, currentwhite, gray, grayagain, weak, t); }
      NoBlack(heap, currentwhite);
      heap := Colored(heap, t, Gray);
      grayagain := [t] + grayagain;
      Recolored(h, t, Gray);
    }

    // An object changed color, but not to the white that is doomed.
    lemma Recolored(h: Objects, o: Id, color: Color)
      requires o in h && heap == Colored(h, o, color) && (color.Gray? || color == White(currentwhite))
      requires !Doomed(h[o], currentwhite) || h[o].body.StringBody?
      requires Whole(h)
      ensures Whole(heap) && SameBodies(h, heap)
      ensures RootsMarked(h, [Ref(mainthread), registry]) && color.Gray? ==>
                RootsMarked(heap, [Ref(mainthread), registry])
      ensures h[o].color != White(currentwhite) || color == White(currentwhite) ==>
                forall n, p :: SweptTo(h, currentwhite, strt, n, rootgc, p) ==>
                    SweptTo(heap, currentwhite, strt, n, rootgc, p)
    {
      hide Roots, Closed, Chained, FixedOk;
      assert heap.Keys == h.Keys;
      RecolorClosed(h, Roots(), currentwhite, o, color);
      BodiesKept(h, heap);
      ChainedStays(h, heap, strt, rootgc, mainthread);
    }

    // Stores v in o, as every assignment to a field, upvalue or stack slot
    // does, with the barrier its object needs. Threads are never black.
    method Write(o: Id, b: Body, v: Value, ghost d: iset<Id>)
      requires Inv() && o in heap && !Doomed(heap[o], currentwhite) && Alive(heap, currentwhite, v)
      requires Stores(heap[o].body, b, v)
      requires o !in d && (v.Ref? ==> v.id !in d) && Walled(heap, d) && Ordinary(heap, d)
      modifies this`heap, this`gray, this`grayagain
      ensures Inv() && SameBodies(Written(old(heap), o, b), heap)
      ensures Walled(heap, d) && Ordinary(heap, d) && Spared(old(heap), heap, d)
    {
      hide Walled, Ordinary, Spared, Whole, Tricolour, SweptTo, AllWhite, RootsMarked, Stores, SettledBut, SameBodies;
      ghost var h := heap;
      heap := heap[o := heap[o].(body := b)];
      Rewritten(h, o, b, v);
      if phase == Propagate { WriteTricolour(h, currentwhite, gray, grayagain, weak, o, b, v); }
      BodiesSelf(heap);
      WrittenWalled(h, o, b, v, heap, d);
      SparedWritten(h, o, b, d);
      ghost var h1 := heap;
      if v.Ref? && heap[v.id].color.White? && heap[o].color.Black? {
        if heap[o].body.TableBody? {
          BarrierBack(o);
          SparedColored(h1, o, Gray, d);
        } else {
          BarrierF(o, v.id, d);
        }
      } else if phase == Propagate && heap[o].color.Black? {
        WriteSettled(heap, currentwhite, gray, grayagain, weak, o, v);
      }
      SameWalled(h1, heap, d);
      SparedTwice(h, h1, heap, d);
    }

    // Colors do not matter to who refers to whom.
    static lemma SameWalled(h: Objects, h': Objects, d: iset<Id>)
      requires SameBodies(h, h')
      ensures Walled(h, d) ==> Walled(h', d)
      ensures Ordinary(h, d) ==> Ordinary(h', d)
    {
    }

    static lemma MarkedSpares(h: Objects, g: seq<Id>, h': Objects, g': seq<Id>, d: iset<Id>)
      requires Marked(h, g, h', g', Rest(d))
      ensures Spared(h, h', d)
    {
    }

    static lemma SparedColored(h: Objects, o: Id, color: Color, d: iset<Id>)
      requires o in h && h[o].color.Black?
      ensures Spared(h, Colored(h, o, color), d)
    {
    }

    static lemma SparedWritten(h: Objects, o: Id, b: Body, d: iset<Id>)
      requires o in h
      ensures Spared(h, Written(h, o, b), d) && Spared(Written(h, o, b), Written(h, o, b), d)
    {
    }

    static lemma SparedTwice(h: Objects, h1: Objects, h2: Objects, d: iset<Id>)
      requires Spared(h, h1, d) && (Spared(h1, h2, d) || h2 == h1)
      ensures Spared(h, h2, d)
    {
    }

    lemma Rewritten(h: Objects, o: Id, b: Body, v: Value)
      requires o in h && heap == Written(h, o, b) && Stores(h[o].body, b, v)
      requires Whole(h) && !Doomed(h[o], currentwhite) && Alive(h, currentwhite, v)
      ensures Whole(heap)
      ensures heap.Keys == h.Keys
              && forall x :: x in h ==> SameKind(h[x].body, heap[x].body) && heap[x].color == h[x].color
      ensures RootsMarked(h, [Ref(mainthread), registry]) ==> RootsMarked(heap, [Ref(mainthread), registry])
      ensures AllWhite(h, currentwhite) ==> AllWhite(heap, currentwhite)
      ensures forall n, p :: SweptTo(h, currentwhite, strt, n, rootgc, p) ==>
                SweptTo(heap, currentwhite, strt, n, rootgc, p)
    {
      hide Closed, Chained, FixedOk, Roots;
      WriteClosed(h, Roots(), currentwhite, o, b, v);
      ChainedStays(h, heap, strt, rootgc, mainthread);
    }

    // ---------- new objects and roots ----------

    // A new object, linked in front of all others.
    method Link(o: Id, b: Body)
      requires Inv() && o !in heap && !b.StringBody? && forall r :: Refers(b, r) ==> Alive(heap, currentwhite, Ref(r))
      modifies this`heap, this`rootgc, this`sweepgc
      ensures Inv() && heap == old(heap)[o := Object(White(currentwhite), false, STRONG, b)]
    {
      hide Closed, Tricolour, FixedOk, Marks, Chained, SweptTo, AllWhite, RootsMarked, Roots;
      ghost var x := Object(White(currentwhite), false, STRONG, b);
      NewClosed(heap, Roots(), currentwhite, o, x);
      NewRoot(heap, strt, rootgc, o, x);
      NewStays(heap, o, x, currentwhite, mainthread, [Ref(mainthread), registry]);
      if phase == Propagate { NewTricolour(heap, currentwhite, gray, grayagain, weak, o, x); }
      if phase == SweepString || phase == Sweep {
        NewRootSwept(heap, currentwhite, strt, if phase == Sweep then |strt| else sweepstrgc, rootgc, sweepgc, o, x);
      }
      // the sweep goes on behind the object it stopped at; a sweep yet to begin meets the new one
      if sweepgc > 0 { sweepgc := sweepgc + 1; }
      rootgc := [o] + rootgc;
      heap := heap[o := Object(White(currentwhite), false, STRONG, b)];
    }

    method NewString(o: Id, hash: nat)
      requires Inv() && o !in heap
      modifies this`heap, this`strt
      ensures Inv() && heap == old(heap)[o := Object(White(currentwhite), false, STRONG, StringBody(hash))]
    {
      hide Closed, Tricolour, FixedOk, Chained, SweptTo, AllWhite, RootsMarked, Roots;
      SomeBucket(heap, strt, rootgc);
      ghost var x := Object(White(currentwhite), false, STRONG, StringBody(hash));
      NewClosed(heap, Roots(), currentwhite, o, x);
      NewInBucket(heap, strt, rootgc, o, x);
      NewStays(heap, o, x, currentwhite, mainthread, [Ref(mainthread), registry]);
      if phase == Propagate { NewTricolour(heap, currentwhite, gray, grayagain, weak, o, x); }
      var b := hash % |strt|;
      if phase == SweepString || phase == Sweep {
        NewStringSwept(heap, currentwhite, strt,
          if phase == Sweep then |strt| else sweepstrgc, rootgc, sweepgc, o, x, b);
      }
      strt := strt[b := [o] + strt[b]];
      heap := heap[o := Object(White(currentwhite), false, STRONG, StringBody(hash))];
    }

    // A string found again in the string table is used even if it was about to be swept.
    method Resurrect(o: Id)
      requires Inv() && o in heap && heap[o].body.StringBody?
      modifies this`heap
      ensures Inv() && SameBodies(old(heap), heap) && !Doomed(heap[o], currentwhite)
      ensures forall x :: x in heap && x != o ==> heap[x] == old(heap)[x]
    {
      hide Whole, Tricolour, SweptTo, AllWhite, RootsMarked, SameBodies;
      ghost var h := heap;
      BodiesSelf(heap);
      if heap[o].color == White(!currentwhite) {
        NoBlack(heap, currentwhite);
        if phase == Propagate { TricolourWhites(heap, currentwhite, gray, grayagain, weak, -1); }
        heap := Colored(heap, o, White(currentwhite));
        Recolored(h, o, White(currentwhite));
      }
    }

    method Resume(o: Id)
      requires Inv() && o in heap && heap[o].body.ThreadBody? && !Doomed(heap[o], currentwhite)
      modifies this`running
      ensures Inv() && running == o
    {
      hide Closed, Chained, Tricolour, SweptTo, AllWhite, FixedOk, RootsMarked, Roots;
      ghost var roots := Roots();
      RootsAre();
      running := o;
      RootsAre();
      ClosedRoots(heap, roots, Roots(), currentwhite);
    }

    method SetBasicMetatables(vs: seq<Value>)
      requires Inv() && forall v :: v in vs ==> Alive(heap, currentwhite, v)
      modifies this`mt
      ensures Inv() && mt == vs
    {
      hide Closed, Chained, Tricolour, SweptTo, AllWhite, FixedOk, RootsMarked, Roots;
      ghost var roots := Roots();
      RootsAre();
      mt := vs;
      RootsAre();
      assert forall r :: Ref(r) in vs ==> Alive(heap, currentwhite, Ref(r));
      ClosedRoots(heap, roots, Roots(), currentwhite);
    }

    lemma RootsAre()
      ensures forall r :: Ref(r) in Roots() <==> r == mainthread || r == running || Ref(r) == registry || Ref(r) in mt
    {
      RootsSeq(mainthread, running, registry, mt);
      RootsHeld();
    }

    // Other roots, all of them usable.
    static lemma ClosedRoots(h: Objects, roots: seq<Value>, roots': seq<Value>, w: bool)
      requires Closed(h, roots, w) && forall r :: Ref(r) in roots' ==> Ref(r) in roots || (r in h && !Doomed(h[r], w))
      ensures Closed(h, roots', w)
    {
    }


    // ---------- runs ----------

    constructor (main: Id, globals: Id, reg: Id, buckets: nat)
      requires main != globals && main != reg && globals != reg && buckets > 0
      ensures Inv() && phase == Pause && running == main
    {
      mainthread, running, registry, mt := main, main, Ref(reg), [];
      currentwhite, phase := false, Pause;
      gray, grayagain, weak := [], [], [];
      strt := seq(buckets, _ => []);
      rootgc := [reg, globals, main];
      sweepstrgc, sweepgc := 0, 0;
      heap := map[
        main := Object(White(false), true, STRONG, ThreadBody(Ref(globals), [])),
        globals := Object(White(false), false, STRONG, TableBody(Nil, [], [], STRONG)),
        reg := Object(White(false), false, STRONG, TableBody(Nil, [], [], STRONG))];
      new;
      hide Closed, FixedOk, Roots;
      InitialHeap(main, globals, reg, heap);
      assert Roots() == [Ref(main), Ref(main), Ref(reg)] + mt by { RootsHeld(); }
    }

    // Reads a reference: only what is reachable can be used.
    method Resolve(path: seq<nat>, ghost d: iset<Id>) returns (v: Value)
      requires Inv() && Dead(d)
      ensures Alive(heap, currentwhite, v) && v == Follow(heap, Roots(), false, path) && (v.Ref? ==> v.id !in d)
    {
      FollowAlive(heap, Roots(), currentwhite, path);
      NotReached(heap, Roots(), d, false, path);
      v := Follow(heap, Roots(), false, path);
    }

    method ResolveAll(paths: seq<seq<nat>>, ghost d: iset<Id>) returns (vs: seq<Value>)
      requires Inv() && Dead(d)
      ensures |vs| == |paths| && forall v :: v in vs ==> Alive(heap, currentwhite, v) && (v.Ref? ==> v.id !in d)
    {
      hide Inv, Dead;
      vs := [];
      for i := 0 to |paths|
        invariant |vs| == i && forall v :: v in vs ==> Alive(heap, currentwhite, v) && (v.Ref? ==> v.id !in d)
      {
        var v := Resolve(paths[i], d);
        vs := vs + [v];
      }
    }

    // The objects of d are garbage: nothing outside d refers to them, and they
    // are white, then doomed, then lost.
    ghost predicate Dead(d: iset<Id>)
      reads this
    {
      && Walled(heap, d) && RootsOutside(Roots(), d) && Ordinary(heap, d)
      && match phase
         case Pause => StillWhite(heap, d)
         case Propagate => StillWhite(heap, d)
         case SweepString => AllDoomed(heap, currentwhite, d)
         case Sweep => AllDoomed(heap, currentwhite, d)
         case Finalize => Lost(heap, d)
    }

    // The mutator has changed neither phase nor roots, and no color in d.
    lemma DeadStays(h: Objects, d: iset<Id>)
      requires Walled(heap, d) && Ordinary(heap, d) && RootsOutside(Roots(), d)
      requires Spared(h, heap, d) && heap.Keys == h.Keys && forall x :: x in h ==> heap[x].fixed == h[x].fixed
      requires match phase
               case Pause => StillWhite(h, d)
               case Propagate => StillWhite(h, d)
               case SweepString => AllDoomed(h, currentwhite, d)
               case Sweep => AllDoomed(h, currentwhite, d)
               case Finalize => Lost(h, d)
      ensures Dead(d)
    {
      SparedStays(h, heap, currentwhite, d);
    }

    // Pushes a value on the stack of the running thread.
    method Push(v: Value, ghost d: iset<Id>)
      requires Inv() && Alive(heap, currentwhite, v) && Dead(d) && (v.Ref? ==> v.id !in d)
      modifies this`heap, this`gray, this`grayagain
      ensures Inv() && heap.Keys == old(heap).Keys && Dead(d)
    {
      hide Inv, Walled, Ordinary, Spared, StillWhite, AllDoomed, Lost, Roots;
      ghost var h := heap;
      RunningHeld();
      var b := heap[running].body;
      PushStores(b, v);
      Write(running, ThreadBody(b.globals, b.stack + [v]), v, d);
      DeadStays(h, d);
    }

    lemma RunningHeld()
      requires Inv()
      ensures running in heap && heap[running].body.ThreadBody? && !Doomed(heap[running], currentwhite)
              && Ref(running) in Roots()
    {
      RootsHeld();
    }

    // A string found again is in use; nothing refers to it that did not.
    method FindString(o: Id, ghost d: iset<Id>)
      requires Inv() && Dead(d) && o in heap && heap[o].body.StringBody?
      modifies this`heap, this`gray, this`grayagain
      ensures Inv() && heap.Keys == old(heap).Keys && Dead(d)
    {
      hide Inv, Walled, Spared, StillWhite, AllDoomed, Lost, Roots;
      ghost var h := heap;
      assert o !in d;
      Resurrect(o);
      SameWalled(h, heap, d);
      OthersSpared(h, heap, o, d);
      DeadStays(h, d);
      Push(Ref(o), d);
    }

    static lemma OthersSpared(h: Objects, h': Objects, o: Id, d: iset<Id>)
      requires o !in d && h'.Keys == h.Keys && forall x :: x in h' && x != o ==> h'[x] == h[x]
      ensures Spared(h, h', d)
    {
    }

    // A new object on the stack. An address of d that it has was free: what had it is lost.
    method Add(o: Id, b: Body, ghost d: iset<Id>)
      requires Inv() && Dead(d) && o !in heap
      requires forall r :: Refers(b, r) ==> Alive(heap, currentwhite, Ref(r)) && r !in d
      modifies this`heap, this`rootgc, this`sweepgc, this`strt, this`gray, this`grayagain
      ensures Inv() && heap.Keys == old(heap).Keys + {o} && Dead(d - iset{o})
    {
      hide Inv, Walled, Ordinary, StillWhite, AllDoomed, Lost, Roots, Marks;
      ghost var h := heap;
      NewOutside(heap, o, Object(White(currentwhite), false, STRONG, b), currentwhite, d);
      match b {
        case StringBody(hash) => NewString(o, hash);
        case _ => Link(o, b);
      }
      RootsNarrower(d, o);
      Push(Ref(o), d - iset{o});
    }

    lemma RootsNarrower(d: iset<Id>, o: Id)
      requires RootsOutside(Roots(), d)
      ensures RootsOutside(Roots(), d - iset{o})
    {
    }

    // One operation of a run. What cannot be done in the present state changes nothing.
    // Garbage d remains garbage, except that the addresses of what is lost may be used again.
    method Execute(op: Op, ghost d: iset<Id>) returns (ghost d': iset<Id>)
      requires Inv() && Dead(d)
      modifies this
      ensures Inv() && Dead(d')
      ensures d' == d || (Makes(op) && d' == d - iset{op.address})
      ensures forall o :: StronglyReachable(old(heap), old(Roots()), o) ==> o in heap
      ensures !op.Collect? ==> forall o :: Reachable(old(heap), old(Roots()), o) ==> o in heap
    {
      hide Inv, Dead, Reachable, StronglyReachable, Roots, Marks;
      AllReachable();
      StrongIsReachable(heap, Roots());
      d' := d;
      match op {
        case Step =>
          StepAnyway(d);
        case Collect =>
          CollectAnyway(d);
        case Create(o, from, make) =>
          var vs := ResolveAll(from, d);
          var b := make(vs);
          if o !in heap && !b.StringBody? && forall v :: v in Marks(b, STRONG) ==> !v.Ref? || v in vs {
            Add(o, b, d);
            d' := d - iset{o};
          }
        case CreateString(o, hash) =>
          if o !in heap {
            NoReferences(hash);
            Add(o, StringBody(hash), d);
            d' := d - iset{o};
          }
        case Intern(o) =>
          if o in heap && heap[o].body.StringBody? {
            FindString(o, d);
          }
        case Store(target, source, edit) =>
          var t := Resolve(target, d);
          var v := Resolve(source, d);
          if t.Ref? {
            var b := heap[t.id].body;
            var b' := edit(b, v);
            if SameKind(b, b') && forall u :: u in Marks(b', STRONG) ==> !u.Ref? || u == v || u in Marks(b, STRONG) {
              Assign(t.id, b', v, d);
            }
          }
        case Switch(thread) =>
          var t := Resolve(thread, d);
          if t.Ref? && heap[t.id].body.ThreadBody? {
            SwitchTo(t.id, d);
          }
        case Metatables(from) =>
          var vs := ResolveAll(from, d);
          ChangeMetatables(vs, d);
      }
    }

    static lemma NoReferences(hash: nat)
      ensures forall r :: !Refers(StringBody(hash), r)
    {
    }

    method Assign(o: Id, b: Body, v: Value, ghost d: iset<Id>)
      requires Inv() && Dead(d) && o in heap && !Doomed(heap[o], currentwhite) && Alive(heap, currentwhite, v)
      requires Stores(heap[o].body, b, v) && o !in d && (v.Ref? ==> v.id !in d)
      modifies this`heap, this`gray, this`grayagain
      ensures Inv() && Dead(d) && heap.Keys == old(heap).Keys
    {
      hide Inv, Walled, Ordinary, Spared, StillWhite, AllDoomed, Lost, Roots, Stores;
      ghost var h := heap;
      Write(o, b, v, d);
      DeadStays(h, d);
    }

    method SwitchTo(o: Id, ghost d: iset<Id>)
      requires Inv() && Dead(d) && o in heap && heap[o].body.ThreadBody? && !Doomed(heap[o], currentwhite) && o !in d
      modifies this`running
      ensures Inv() && Dead(d)
    {
      hide Walled, Ordinary, StillWhite, AllDoomed, Lost, Inv;
      Resume(o);
      RootsSeq(mainthread, running, registry, mt);
      RootsSeq(mainthread, old(running), registry, mt);
      RootsHeld();
    }

    method ChangeMetatables(vs: seq<Value>, ghost d: iset<Id>)
      requires Inv() && Dead(d) && forall v :: v in vs ==> Alive(heap, currentwhite, v) && (v.Ref? ==> v.id !in d)
      modifies this`mt
      ensures Inv() && Dead(d)
    {
      hide Walled, Ordinary, StillWhite, AllDoomed, Lost, Inv;
      SetBasicMetatables(vs);
      RootsSeq(mainthread, running, registry, mt);
    }

    // Every run, of any length and in any order, keeps everything reachable.
    method Perform(ops: seq<Op>) returns (ghost alive: iset<Id>)
      requires Inv()
      modifies this
      ensures Inv() && forall o :: Reachable(heap, Roots(), o) ==> o in alive
      ensures Intact(alive)
    {
      hide Inv, Reachable, Dead;
      ghost var d: iset<Id> := iset{};
      NothingIsDead();
      for i := 0 to |ops|
        invariant Inv() && d == iset{} && Dead(d)
      {
        d := Execute(ops[i], d);
        assert d == iset{};
      }
      AllReachable();
      alive := iset o | o in heap && !Doomed(heap[o], currentwhite);
      AliveFields(alive);
    }

    // After any run the roots and all that fields lead to from there are in the heap.
    method Run(ops: seq<Op>) returns (ghost alive: iset<Id>)
      requires Inv()
      modifies this
      ensures Inv() && forall o :: Reachable(heap, Roots(), o) ==> o in alive
      ensures forall o :: o in alive ==> o in heap
      ensures forall o :: o in alive ==>
                match heap[o].body
                case StringBody(_) => true
                case UserdataBody(mt, env) => (mt.Ref? ==> mt.id in alive) && (env.Ref? ==> env.id in alive)
                case UpvalBody(v) => v.Ref? ==> v.id in alive
                case ClosureBody(env, proto, upvals) =>
                  && (env.Ref? ==> env.id in alive) && (proto.Ref? ==> proto.id in alive)
                  && forall v :: v in upvals && v.Ref? ==> v.id in alive
                case ProtoBody(source, constants, upvalues, protos, locvars) =>
                  && (source.Ref? ==> source.id in alive)
                  && (forall v :: v in constants && v.Ref? ==> v.id in alive)
                  && (forall v :: v in upvalues && v.Ref? ==> v.id in alive)
                  && (forall v :: v in protos && v.Ref? ==> v.id in alive)
                  && forall v :: v in locvars && v.Ref? ==> v.id in alive
                case TableBody(mt, items, nodes, _) =>
                  && (mt.Ref? ==> mt.id in alive) && (forall v :: v in items && v.Ref? ==> v.id in alive)
                  && forall n :: n in nodes && !n.val.Nil? ==>
                       (n.key.Ref? ==> n.key.id in alive) && (n.val.Ref? ==> n.val.id in alive)
                case ThreadBody(globals, stack) =>
                  (globals.Ref? ==> globals.id in alive) && forall v :: v in stack && v.Ref? ==> v.id in alive
      ensures mainthread in alive && running in alive && (registry.Ref? ==> registry.id in alive)
      ensures forall v :: v in mt && v.Ref? ==> v.id in alive
    {
      hide Inv, Roots, Reachable;
      alive := Perform(ops);
    }

    lemma NothingIsDead()
      ensures Dead(iset{})
    {
      NothingDead(heap, Roots(), currentwhite);
    }

    // A cycle interleaved with anything the mutator does: whatever could not be
    // reached before it is gone when it has been swept, unless it is a string or
    // fixed, or its address has been given to a new object.
    method Cycle(ops: seq<Op>)
      requires Inv() && phase == Pause
      modifies this
      ensures Inv()
      ensures phase == Finalize ==>
                forall o ::
                  o in old(heap) && !Reachable(old(heap), old(Roots()), o)
                  && !old(heap)[o].body.StringBody? && !old(heap)[o].fixed ==>
                    (forall op :: op in ops ==> !Makes(op) || op.address != o) ==> o !in heap
    {
      hide Inv, Unreachable, Reachable, Walled, RootsOutside, Ordinary, Roots;
      ghost var d0 := Unreachable(heap, Roots());
      ghost var d := d0;
      UnreachableIsDead();
      for i := 0 to |ops|
        invariant Inv() && Dead(d)
        invariant forall o :: o in d0 && (forall op :: op in ops[..i] ==> !Makes(op) || op.address != o) ==> o in d
      {
        d := Execute(ops[i], d);
        assert ops[..i + 1] == ops[..i] + [ops[i]];
      }
      assert ops[..|ops|] == ops;
    }

    lemma UnreachableIsDead()
      requires Inv() && phase == Pause
      ensures Dead(Unreachable(heap, Roots()))
      ensures forall o :: o in heap && !Reachable(heap, Roots(), o) && !heap[o].body.StringBody? && !heap[o].fixed ==>
                o in Unreachable(heap, Roots())
    {
      UnreachableIs(heap, Roots());
      hide Reachable, Walled, RootsOutside, Ordinary, Unreachable, Roots;
      RootsHeld();
      UnreachableWalled(heap, Roots(), mainthread);
    }

    // The objects of s are in the heap, with every field in s, and the roots are among them.
    ghost predicate Intact(s: iset<Id>)
      reads this
    {
      && (forall o :: o in s ==> o in heap && FieldsIn(heap[o].body, STRONG, s))
      && mainthread in s && running in s && In(registry, s) && forall v :: v in mt ==> In(v, s)
    }

    lemma AliveFields(s: iset<Id>)
      requires Inv() && s == iset o | o in heap && !Doomed(heap[o], currentwhite)
      ensures Intact(s)
    {
      hide FieldsIn, Chained, FixedOk, Marks, Tricolour, SweptTo, RootsMarked, AllWhite;
      forall o | o in s ensures FieldsIn(heap[o].body, STRONG, s) {
        forall r | Ref(r) in Marks(heap[o].body, STRONG) ensures r in s { assert Refers(heap[o].body, r); }
        FieldsExactly(heap[o].body, STRONG, s);
      }
      var roots := Roots();
      assert roots[0] == Ref(mainthread) && roots[1] == Ref(running) && roots[2] == registry;
      forall v | v in mt ensures In(v, s) { assert v in roots; }
    }

    lemma AllReachable()
      requires Inv()
      ensures forall o :: Reachable(heap, Roots(), o) ==> o in heap && !Doomed(heap[o], currentwhite)
    {
      forall o | Reachable(heap, Roots(), o) ensures o in heap && !Doomed(heap[o], currentwhite) {
        ReachableAlive(heap, Roots(), currentwhite, o);
      }
    }

    method StepAnyway(ghost d: iset<Id>)
      requires Inv() && Dead(d)
      modifies this
      ensures Inv() && Dead(d) && forall o :: o in old(heap) && !Doomed(old(heap)[o], old(currentwhite)) ==> o in heap
    {
      hide Chained, Closed, Tricolour, MarkedUp, BlackStrong, SweptTo, AllWhite, Encloses, Covered, RootsIn,
           RootsMarked, FixedOk, Walled, Ordinary, StillWhite, AllDoomed, Lost, RootsOutside, Rest, Shrunk;
      ghost var before, h, w := phase, heap, currentwhite;
      if phase == Pause || phase == Propagate { StepBounds(d); }
      ghost var m, t := SingleStep(Rest(d));
      StepDead(before, h, w, m, t, d);
      StepKeeps(before, h, w, m, t, d);
    }

    lemma StepBounds(d: iset<Id>)
      requires Inv() && Dead(d) && (phase == Pause || phase == Propagate)
      ensures Bounds(Rest(d))
    {
      ClosedAllocated(heap, Roots(), currentwhite);
      RestBounds(heap, Roots(), d);
    }

    // The garbage after a step.
    lemma StepDead(before: Phase, h: Objects, w: bool, m: Objects, t: seq<Id>, d: iset<Id>)
      requires Inv() && Walled(h, d) && Ordinary(h, d) && RootsOutside(Roots(), d)
      requires match before
               case Pause => phase == Propagate && Bounds(Rest(d)) && Progress(h, heap)
               case Propagate =>
                 if phase == Propagate then Bounds(Rest(d)) && Progress(h, heap)
                 else phase == SweepString && MarkedUp(h, Roots(), Rest(d), m, t, heap)
                      && forall o :: o in heap ==> heap[o].color != White(currentwhite)
               case SweepString => (phase == SweepString || phase == Sweep) && Shrunk(h, currentwhite, heap)
                 && AllDoomed(h, currentwhite, d)
               case Sweep => (phase == Sweep || phase == Finalize) && Shrunk(h, currentwhite, heap)
                 && AllDoomed(h, currentwhite, d)
               case Finalize => phase == Pause && heap == h && Lost(h, d)
      ensures Dead(d)
    {
      hide Chained, Closed, Tricolour, BlackStrong, SweptTo, Encloses, RootsIn, RootsMarked, FixedOk, Rest, Roots,
           Walled, Ordinary, StillWhite, AllDoomed, RootsOutside, Shrunk;
      if phase == Propagate {
        ProgressSpares(h, heap, d);
      } else if before == Propagate {
        AtomicDooms(h, m, t, heap, currentwhite, d);
      } else if before != Finalize {
        ShrunkStays(h, currentwhite, heap, d);
        if phase == Finalize { WhiteLost(heap, currentwhite, d); }
      } else {
        NothingWhite(heap, d);
      }
    }

    static lemma NothingWhite(h: Objects, d: iset<Id>)
      requires Lost(h, d)
      ensures StillWhite(h, d) && Ordinary(h, d)
    {
    }

    // What a step keeps.
    lemma StepKeeps(before: Phase, h: Objects, w: bool, m: Objects, t: seq<Id>, d: iset<Id>)
      requires match before
               case Pause => Progress(h, heap)
               case Propagate => Progress(h, heap) || MarkedUp(h, Roots(), Rest(d), m, t, heap)
               case SweepString => Shrunk(h, w, heap)
               case Sweep => Shrunk(h, w, heap)
               case Finalize => heap == h
      ensures forall o :: o in h && !Doomed(h[o], w) ==> o in heap
    {
      hide Roots, Rest, RootsMarked, Covered, BlackStrong;
      assert before == Propagate ==> heap.Keys == h.Keys;
    }

    method CollectAnyway(ghost d: iset<Id>)
      requires Inv() && Dead(d)
      modifies this
      ensures Inv() && Dead(d) && forall o :: StronglyReachable(old(heap), old(Roots()), o) ==> o in heap
    {
      hide Inv, StronglyReachable, KeptBody, StringSeen, ModeOf, Walled, Ordinary, Lost, RootsOutside, Roots;
      ghost var h := heap;
      var m, t := FullGC();
      CollectedLost(h, Roots(), m, t, heap, d);
      NothingWhite(heap, d);
    }

    lemma RootsHeld()
      ensures Ref(mainthread) in Roots() && Ref(running) in Roots() && (registry.Ref? ==> registry in Roots())
      ensures forall v :: v in mt ==> v in Roots()
    {
      var vs := [Ref(mainthread), Ref(running), registry];
      assert vs[0] in vs && vs[1] in vs && vs[2] in vs;
    }
  }

  // What a whole collection that turned heap h into h' does:
  // everything strongly reachable is kept, everything else is removed except
  // fixed objects and the strings seen in the weak tables cleared.
  ghost predicate Collected(h: Objects, roots: seq<Value>, hm: Objects, ts: seq<Id>, h': Objects, w': bool) {
    && (forall o :: o in hm ==> o in h && hm[o].body == h[o].body && hm[o].fixed == h[o].fixed)
    && (forall o :: o in h && h[o].fixed ==> o in hm)
    && (forall o :: StronglyReachable(h, roots, o) <==> o in hm && !hm[o].color.White?)
    && (forall o :: o in h' <==> o in hm && (!hm[o].color.White? || hm[o].fixed || StringSeen(hm, ts, o)))
    && (forall o :: o in h' ==> h'[o].color == White(w'))
    && (forall o :: o in h' ==> (o in ts ==> hm[o].body.TableBody?)
                                && h'[o].body == if o in ts then KeptBody(hm, hm[o].body, hm[o].weak) else hm[o].body)
    && (forall t :: t in ts <==>
      t in hm && !hm[t].color.White? && hm[t].body.TableBody? && ModeOf(hm, hm[t].body) != STRONG)
    && (forall t :: t in ts && t in hm ==> hm[t].weak == ModeOf(hm, hm[t].body))
  }

  // b' is b without the entries that refer to what is not in the heap.
  ghost predicate BodyKept(b: Body, h: Objects, b': Body) {
    if !b.TableBody? then b' == b
    else
      && b'.TableBody? && b'.metatable == b.metatable && b'.mode == b.mode
      && |b'.items| == |b.items| && |b'.nodes| == |b.nodes|
      && (forall i :: 0 <= i < |b.items| ==> b'.items[i] == if Dangles(b.items[i], h) then Nil else b.items[i])
      && forall i :: 0 <= i < |b.nodes| ==>
           var n := b.nodes[i];
           b'.nodes[i] == if !n.val.Nil? && (Dangles(n.key, h) || Dangles(n.val, h)) then Node(n.key, Nil) else n
  }

  ghost predicate Dangles(v: Value, h: Objects) { v.Ref? && v.id !in h }

  lemma BodyKeptAt(hm: Objects, weak: bool, b: Body, bits: Mode, h: Objects, b': Body, s: iset<Id>)
    requires weak ==> b.TableBody?
    requires b' == if weak then KeptBody(hm, b, bits) else b
    requires FieldsIn(b', STRONG, s) && s == iset o | o in h
    requires forall r :: r in hm && hm[r].color.White? && !hm[r].body.StringBody? ==> r !in h
    ensures BodyKept(b, h, b')
  {
    if b.TableBody? {
      forall i | 0 <= i < |b.items| ensures b'.items[i] == if Dangles(b.items[i], h) then Nil else b.items[i] {
        assert b'.items[i] in b'.items && In(b'.items[i], s);
      }
      forall i | 0 <= i < |b.nodes|
        ensures var n := b.nodes[i];
                b'.nodes[i] == if !n.val.Nil? && (Dangles(n.key, h) || Dangles(n.val, h)) then Node(n.key, Nil) else n
      {
        assert b'.nodes[i] in b'.nodes;
      }
    }
  }

  lemma CollectedKeeps(h: Objects, roots: seq<Value>, hm: Objects, ts: seq<Id>, h': Objects, w: bool)
    requires Collected(h, roots, hm, ts, h', w)
    ensures forall o :: StronglyReachable(h, roots, o) ==> o in h'
    ensures forall o :: o in h' ==> StronglyReachable(h, roots, o) || h[o].fixed || h'[o].body.StringBody?
  {
    hide StronglyReachable, KeptBody, Seen, ModeOf;
  }

  lemma ShrunkNothing(h: Objects, w: bool)
    ensures Shrunk(h, w, h)
  {
  }

  lemma ShrunkTwice(h: Objects, w: bool, h1: Objects, h2: Objects)
    requires Shrunk(h, w, h1) && Shrunk(h1, w, h2)
    ensures Shrunk(h, w, h2)
  {
  }

  // The reachable objects bound what marking can reach.
  lemma ReachableBound(h: Objects, roots: seq<Value>, w: bool, c: iset<Id>)
    requires Closed(h, roots, w) && AllWhite(h, w) && c == iset o | StronglyReachable(h, roots, o)
    ensures Encloses(h, c) && Covered(h, c) && RootsIn(h, roots, c)
  {
    forall r | Ref(r) in roots ensures r in h && r in c { FollowRoot(h, roots, r); }
    forall o, r | o in c && o in h && Ref(r) in MarkedBy(h, h[o].body) ensures r in c {
      var path :| Follow(h, roots, true, path) == Ref(o);
      FollowStep(h, roots, path, o, r);
    }
  }

  lemma MarkedUpBefore(h0: Objects, h: Objects, roots: seq<Value>, c: iset<Id>, hm: Objects, ts: seq<Id>, h': Objects)
    requires Progress(h0, h) && BlackStrong(h) && MarkedUp(h, roots, c, hm, ts, h')
    ensures MarkedUp(h0, roots, c, hm, ts, h')
  {
  }

  // Removing doomed objects changes nothing that can be reached.
  lemma {:induction false} FollowShrunk(h: Objects, roots: seq<Value>, w: bool, h': Objects, path: seq<nat>)
    requires Closed(h, roots, w) && Shrunk(h, w, h')
    ensures Follow(h', roots, true, path) == Follow(h, roots, true, path) && Alive(h, w, Follow(h, roots, true, path))
    decreases |path|
  {
    hide Marks, ModeOf, Shrunk;
    if |path| == 1 {
      RootAlive(h, roots, w, path[0]);
    } else if |path| > 1 {
      var init, k := path[..|path| - 1], path[|path| - 1];
      FollowShrunk(h, roots, w, h', init);
      var v := Follow(h, roots, true, init);
      if v.Ref? {
        ShrunkMarks(h, roots, w, h', v.id);
        var vs := MarkedBy(h, h[v.id].body);
        if k < |vs| && vs[k].Ref? {
          assert vs[k] == Ref(vs[k].id) && vs[k] in vs;
          StrongRefers(h, h[v.id].body, vs[k].id);
        }
      }
    }
  }

  lemma RootAlive(h: Objects, roots: seq<Value>, w: bool, k: nat)
    requires Closed(h, roots, w)
    ensures k < |roots| ==> Alive(h, w, roots[k])
  {
    if k < |roots| && roots[k].Ref? { assert Ref(roots[k].id) in roots; }
  }

  lemma ShrunkMarks(h: Objects, roots: seq<Value>, w: bool, h': Objects, o: Id)
    requires Closed(h, roots, w) && Shrunk(h, w, h') && o in h && !Doomed(h[o], w)
    ensures o in h' && h'[o].body == h[o].body && MarkedBy(h', h[o].body) == MarkedBy(h, h[o].body)
  {
    var b := h[o].body;
    if b.TableBody? && b.metatable.Ref? {
      assert Marks(b, STRONG)[0] == b.metatable && Refers(b, b.metatable.id);
    }
  }

  lemma ReachSame(h: Objects, roots: seq<Value>, w: bool, h': Objects)
    requires Closed(h, roots, w) && Shrunk(h, w, h')
    ensures forall o :: StronglyReachable(h, roots, o) <==> StronglyReachable(h', roots, o)
  {
    forall o ensures StronglyReachable(h, roots, o) <==> StronglyReachable(h', roots, o) {
      if StronglyReachable(h, roots, o) {
        var path :| Follow(h, roots, true, path) == Ref(o);
        FollowShrunk(h, roots, w, h', path);
      }
      if StronglyReachable(h', roots, o) {
        var path :| Follow(h', roots, true, path) == Ref(o);
        FollowShrunk(h, roots, w, h', path);
      }
    }
  }

  // Marking reaches all that is strongly reachable, and nothing else.
  lemma ReachMarked(h: Objects, roots: seq<Value>, c: iset<Id>, hm: Objects, ts: seq<Id>, h': Objects)
    requires MarkedUp(h, roots, c, hm, ts, h') && c == iset o | StronglyReachable(h, roots, o)
    ensures forall o :: StronglyReachable(h, roots, o) <==> o in hm && !hm[o].color.White?
  {
    var m := iset o | o in hm && !hm[o].color.White?;
    forall o, r | o in m && o in h && Ref(r) in MarkedBy(h, h[o].body) ensures r in m {
      ModesStay(h, hm, h[o].body);
      assert Ref(r) in MarkedBy(hm, hm[o].body);
    }
    forall o | StronglyReachable(h, roots, o) ensures o in m {
      var path :| Follow(h, roots, true, path) == Ref(o);
      FollowWithin(h, roots, true, path, m);
    }
  }

  lemma CollectedAll(h: Objects, w: bool, h0: Objects, roots: seq<Value>, c: iset<Id>, hm: Objects, ts: seq<Id>,
                     hc: Objects,
                     w': bool, h': Objects)
    requires Closed(h, roots, w) && Shrunk(h, w, h0) && AllWhite(h0, w)
    requires c == iset o | StronglyReachable(h0, roots, o)
    requires MarkedUp(h0, roots, c, hm, ts, hc) && (forall o :: o in hc ==> hc[o].color != White(w'))
    requires Shrunk(hc, w', h') && AllWhite(h', w')
    ensures Collected(h, roots, hm, ts, h', w')
  {
    hide StronglyReachable, KeptBody, StringSeen, ModeOf, Marks, MarkedBy, RootsMarked, Covered, TablesCleared,
         Closed;
    ReachSame(h, roots, w, h0);
    ReachMarked(h0, roots, c, hm, ts, hc);
    forall o | o in hm ensures o in h && hm[o].body == h[o].body && hm[o].fixed == h[o].fixed { assert o in h0; }
    SweptAll(hm, ts, hc, w', h');
    assert BlackStrong(h0);
  }

  // What is left of the marked heap after clearing and sweeping.
  lemma SweptAll(hm: Objects, ts: seq<Id>, hc: Objects, w': bool, h': Objects)
    requires TablesCleared(hm, ts, hc) && (forall o :: o in hc ==> hc[o].color != White(w'))
    requires Shrunk(hc, w', h') && AllWhite(h', w')
    ensures forall o :: o in h' <==> o in hm && (!hm[o].color.White? || hm[o].fixed || StringSeen(hm, ts, o))
    ensures forall o :: o in h' ==> (o in ts ==> hm[o].body.TableBody?)
                                    && h'[o].body ==
                                      if o in ts then KeptBody(hm, hm[o].body, hm[o].weak) else hm[o].body
  {
    hide KeptBody, StringSeen, ClearedAt;
    forall o | o in hm
      ensures o in h' <==> !hm[o].color.White? || hm[o].fixed || StringSeen(hm, ts, o)
      ensures o in h' ==> h'[o].body == if o in ts then KeptBody(hm, hm[o].body, hm[o].weak) else hm[o].body
    {
      assert ClearedAt(hm, ts, hc, o);
      ClearedSummary(hm, ts, hc, o);
    }
  }

  lemma ClearedSummary(h: Objects, ts: seq<Id>, h': Objects, o: Id)
    requires o in h && o in h' && (o in ts ==> h[o].body.TableBody?) && ClearedAt(h, ts, h', o)
    ensures h'[o].fixed == h[o].fixed
    ensures h'[o].body == if o in ts then KeptBody(h, h[o].body, h[o].weak) else h[o].body
    ensures !h'[o].color.White? <==> !h[o].color.White? || StringSeen(h, ts, o)
  {
  }

  lemma NewStays(h: Objects, o: Id, x: Object, w: bool, mainthread: Id, roots: seq<Value>)
    requires o !in h && x.color == White(w) && !x.fixed
    ensures FixedOk(h, mainthread) ==> FixedOk(h[o := x], mainthread)
    ensures AllWhite(h, w) ==> AllWhite(h[o := x], w)
    ensures RootsMarked(h, roots) ==> RootsMarked(h[o := x], roots)
  {
  }

  lemma InitialHeap(main: Id, globals: Id, reg: Id, h: Objects)
    requires main != globals && main != reg && globals != reg
    requires h.Keys == {main, globals, reg} && forall o :: o in h ==> h[o].color == White(false)
    requires h[main].body == ThreadBody(Ref(globals), []) && forall o :: o in h && h[o].fixed ==> o == main
    requires h[globals].body == h[reg].body == TableBody(Nil, [], [], STRONG)
    ensures Closed(h, [Ref(main), Ref(main), Ref(reg)] + [], false) && FixedOk(h, main)
  {
    assert Marks(h[globals].body, STRONG) == [Nil];
    assert Marks(h[main].body, STRONG) == [Ref(globals)];
    ClosedAllocated(h, [Ref(main), Ref(main), Ref(reg)] + [], false);
  }

  // With no weak table in reach, a collection leaves exactly the reachable and
  // the fixed objects, and changes none of them.
  lemma CollectedWithoutWeak(h: Objects, roots: seq<Value>, hm: Objects, ts: seq<Id>, h': Objects, w: bool)
    requires Collected(h, roots, hm, ts, h', w)
    requires forall t :: t in h && StronglyReachable(h, roots, t) && h[t].body.TableBody? ==>
               ModeOf(h, h[t].body) == STRONG
    ensures forall o :: o in h' <==> o in h && (StronglyReachable(h, roots, o) || h[o].fixed)
    ensures forall o :: o in h' ==> h'[o].body == h[o].body
  {
    hide StronglyReachable, KeptBody, ModeOf, Marks, Seen;
    if ts != [] {
      var t := ts[0];
      assert t in ts && StronglyReachable(h, roots, t);
      SameMode(h, roots, hm, t);
      assert false;
    }
  }

  lemma SameMode(h: Objects, roots: seq<Value>, hm: Objects, t: Id)
    requires t in h && StronglyReachable(h, roots, t) && forall o :: o in hm ==> o in h && hm[o].body == h[o].body
    requires forall o :: StronglyReachable(h, roots, o) ==> o in hm
    ensures ModeOf(hm, h[t].body) == ModeOf(h, h[t].body)
  {
    var b := h[t].body;
    if b.TableBody? && b.metatable.Ref? {
      var path :| Follow(h, roots, true, path) == Ref(t);
      assert MarkedBy(h, b)[0] == b.metatable;
      FollowStep(h, roots, path, t, b.metatable.id);
    }
  }

  lemma PushStores(b: Body, v: Value)
    requires b.ThreadBody?
    ensures Stores(b, ThreadBody(b.globals, b.stack + [v]), v)
  {
    assert Marks(ThreadBody(b.globals, b.stack + [v]), STRONG) == Marks(b, STRONG) + [v];
  }

  lemma StrongIsReachable(h: Objects, roots: seq<Value>)
    ensures forall o :: StronglyReachable(h, roots, o) ==> Reachable(h, roots, o)
  {
    forall o | StronglyReachable(h, roots, o) ensures Reachable(h, roots, o) {
      var path :| Follow(h, roots, true, path) == Ref(o);
      StrongFollows(h, roots, path);
    }
  }

  // Whatever strong references reach, plain references reach by some path.
  lemma {:induction false} StrongFollows(h: Objects, roots: seq<Value>, path: seq<nat>)
    ensures var v := Follow(h, roots, true, path); v.Ref? ==> Reachable(h, roots, v.id)
    decreases |path|
  {
    hide Marks, ModeOf;
    var v := Follow(h, roots, true, path);
    if v.Ref? {
      if |path| == 1 {
        assert Follow(h, roots, false, path) == v;
      } else {
        var init := path[..|path| - 1];
        StrongFollows(h, roots, init);
        var o := Follow(h, roots, true, init).id;
        StrongRefers(h, h[o].body, v.id);
        var path' :| Follow(h, roots, false, path') == Ref(o);
        FollowAnyStep(h, roots, path', o, v.id);
      }
    }
  }

  lemma AllAllocated(h: Objects, roots: seq<Value>, w: bool)
    requires AllWhite(h, w) && Closed(h, roots, w)
    ensures Allocated(h) && forall o :: o in h ==> h[o].color == White(w)
  {
    ClosedAllocated(h, roots, w);
  }

  lemma ChainedBucket(h: Objects, strt: seq<seq<Id>>, rootgc: seq<Id>, b: nat)
    requires Chained(h, strt, rootgc) && b < |strt|
    ensures Distinct(strt[b]) && forall o :: o in strt[b] ==> o in h
  {
  }

  lemma ChainedRoots(h: Objects, strt: seq<seq<Id>>, rootgc: seq<Id>, w: bool, p: nat)
    requires Chained(h, strt, rootgc) && SweptTo(h, w, strt, |strt|, rootgc, p)
    ensures p <= |rootgc| && Distinct(rootgc) && forall o :: o in rootgc ==> o in h
  {
  }

  lemma KeptFixed(h: Objects, w: bool, h': Objects, o: Id, roots: seq<Value>)
    requires Shrunk(h, w, h') && Closed(h, roots, w) && Ref(o) in roots
    ensures o in h' && h'[o].body == h[o].body
    ensures forall m :: FixedOk(h, m) ==> FixedOk(h', m)
  {
  }

  lemma AllSwept(h: Objects, w: bool, strt: seq<seq<Id>>, rootgc: seq<Id>)
    requires Chained(h, strt, rootgc) && SweptTo(h, w, strt, |strt|, rootgc, |rootgc|)
    ensures AllWhite(h, w)
  {
    hide Distinct;
    forall o | o in h ensures h[o].color == White(w) {
      if h[o].body.StringBody? {
        assert o in strt[h[o].body.hash % |strt|];
      } else {
        assert o in rootgc;
      }
    }
  }

  lemma TricolourWhites(h: Objects, w: bool, gray: seq<Id>, again: seq<Id>, weak: seq<Id>, busy: int)
    requires Tricolour(h, w, gray, again, weak, busy)
    ensures forall o :: o in h ==> h[o].color != White(!w)
  {
  }

  lemma Smaller<T>(a: set<T>, b: set<T>)
    requires a < b
    ensures |a| < |b|
  {
    Subset(a, b);
    assert b == a + (b - a) && b - a != {};
  }

  // Only colors and weak bits differ.
  ghost predicate SameBodies(h: Objects, h': Objects) {
    h'.Keys == h.Keys && forall o :: o in h ==> h'[o].body == h[o].body && h'[o].fixed == h[o].fixed
  }

  lemma ProgressBodies(h: Objects, h': Objects)
    requires Progress(h, h')
    ensures SameBodies(h, h')
  {
  }

  lemma BodiesSelf(h: Objects)
    ensures SameBodies(h, h)
  {
  }

  lemma BodiesKept(h: Objects, h': Objects)
    requires SameBodies(h, h')
    ensures h'.Keys == h.Keys && forall o :: o in h ==> SameKind(h[o].body, h'[o].body) && h'[o].fixed == h[o].fixed
  {
  }

  lemma NoBlack(h: Objects, w: bool)
    ensures AllWhite(h, w) ==> forall o :: o in h ==> h[o].color == White(w)
  {
  }

  lemma SettledMore(h: Objects, h': Objects, o: Id, v: Value)
    requires Progress(h, h') && o in h && SettledBut(h, o, v)
    ensures SettledBut(h', o, v)
  {
  }

  lemma ClearedKinds(h: Objects, roots: seq<Value>, c: iset<Id>, hm: Objects, ts: seq<Id>, h': Objects)
    requires MarkedUp(h, roots, c, hm, ts, h')
    ensures h'.Keys == h.Keys && forall o :: o in h ==> SameKind(h[o].body, h'[o].body) && h'[o].fixed == h[o].fixed
  {
    hide KeptBody, StringSeen, ClearedAt;
    forall o | o in h ensures SameKind(h[o].body, h'[o].body) && h'[o].fixed == h[o].fixed {
      assert ClearedAt(hm, ts, h', o);
      ClearedKind(hm, ts, h', o);
    }
  }

  lemma ClearedKind(h: Objects, ts: seq<Id>, h': Objects, o: Id)
    requires o in h && o in h' && (o in ts ==> h[o].body.TableBody?) && ClearedAt(h, ts, h', o)
    ensures SameKind(h[o].body, h'[o].body) && h'[o].fixed == h[o].fixed
  {
  }

  lemma SomeBuckets(h: Objects, strt: seq<seq<Id>>, rootgc: seq<Id>, w: bool)
    requires Chained(h, strt, rootgc)
    ensures |strt| > 0 && SweptTo(h, w, strt, 0, rootgc, 0)
  {
  }

  // The first n objects from place p on have been swept.
  ghost predicate SweptUpTo(h: Objects, w: bool, list: seq<Id>, p: nat, n: nat, swept: seq<Id>, q: nat, h1: Objects) {
    && p + n <= |list| && (forall o :: o in list[p..p + n] ==> o in h) && Swept(h, w, list[p..p + n], h1)
    && var kept := Survivors(h, w, list[p..p + n]);
       swept == list[..p] + kept + list[p + n..] && q == p + |kept|
  }

  lemma NothingSwept(h: Objects, w: bool, list: seq<Id>, p: nat)
    requires p <= |list|
    ensures SweptUpTo(h, w, list, p, 0, list, p, h)
  {
    assert list[p..p] == [] && list == list[..p] + [] + list[p..];
  }

  // The next object is kept or dropped.
  lemma SweepNext(h: Objects, w: bool, list: seq<Id>, p: nat, n: nat, swept: seq<Id>, q: nat, h1: Objects)
    requires p + n < |list| && Distinct(list) && forall o :: o in list ==> o in h
    requires SweptUpTo(h, w, list, p, n, swept, q, h1)
    ensures q < |swept| && swept[q] in h1
    ensures Doomed(h1[swept[q]], w) ==>
              SweptUpTo(h, w, list, p, n + 1, swept[..q] + swept[q + 1..], q, h1 - {swept[q]})
    ensures !Doomed(h1[swept[q]], w) ==>
              SweptUpTo(h, w, list, p, n + 1, swept, q + 1, Colored(h1, swept[q], White(w)))
  {
    hide Survivors, Swept, Distinct, Doomed;
    var xs, curr := list[p..p + n], list[p + n];
    var kept := Survivors(h, w, xs);
    FreshInPiece(list, p, n);
    assert curr in list && list[p..p + n + 1] == xs + [curr];
    SurvivorsSnoc(h, w, xs, curr);
    Unswept(h, w, xs, h1, curr);
    Splice(list[..p] + kept, curr, list[p + n + 1..]);
    assert list[p + n..] == [curr] + list[p + n + 1..];
    assert list[..p] + (kept + [curr]) == list[..p] + kept + [curr];
    SweptMore(h, w, xs, h1, curr, if Doomed(h[curr], w) then h1 - {curr} else Colored(h1, curr, White(w)));
  }

  lemma PieceSwept(h: Objects, w: bool, list: seq<Id>, p: nat, n: nat, swept: seq<Id>, q: nat, h1: Objects)
    requires SweptUpTo(h, w, list, p, n, swept, q, h1) && forall o :: o in list ==> o in h
    ensures Swept(h, w, list[p..p + n], h1)
    ensures forall o :: o in list[p..p + n] ==> o in list
    ensures var kept := Survivors(h, w, list[p..p + n]);
            swept == list[..p] + kept + list[p + n..] && q == p + |kept|
  {
  }

  lemma Splice(a: seq<Id>, x: Id, z: seq<Id>)
    ensures var s := a + ([x] + z); s == a + [x] + z && s[|a|] == x && s[..|a|] + s[|a| + 1..] == a + z
  {
    var s := a + ([x] + z);
    assert s[..|a|] == a && s[|a| + 1..] == z;
  }

  lemma SurvivorsSnoc(h: Objects, w: bool, xs: seq<Id>, x: Id)
    requires forall o :: o in xs + [x] ==> o in h
    ensures (forall o :: o in xs ==> o in h) && x in h
    ensures Survivors(h, w, xs + [x]) == Survivors(h, w, xs) + if Doomed(h[x], w) then [] else [x]
  {
    var s := xs + [x];
    assert s[|xs|] == x && x in s;
    forall o | o in xs ensures o in h { assert o in s; }
    assert s[..|s| - 1] == xs;
  }

  lemma Unswept(h: Objects, w: bool, xs: seq<Id>, h': Objects, x: Id)
    requires Swept(h, w, xs, h') && x in h && x !in xs
    ensures x in h' && h'[x] == h[x]
  {
  }

  lemma FreshInPiece(xs: seq<Id>, p: nat, n: nat)
    requires Distinct(xs) && p + n < |xs|
    ensures xs[p + n] !in xs[p..p + n]
  {
  }

  lemma MarkingOver(h: Objects, w: bool, roots: seq<Value>, c: iset<Id>, hm: Objects, again: seq<Id>, weak: seq<Id>,
                    h': Objects)
    requires Progress(h, hm) && TablesCleared(hm, weak, h') && Covered(hm, c) && Allocated(hm)
    requires Tricolour(hm, w, [], again, weak, -1) && WeakSettled(hm, weak) && ThreadsSettled(hm, again)
    requires RootsMarked(hm, roots)
    requires BlackStrong(h) ==> BlackStrong(hm)
    ensures NonwhiteClosed(h') && MarkedUp(h, roots, c, hm, weak, h')
    ensures RootsMarked(h', roots)
    ensures forall o :: o in h' ==> h'[o].color != White(!w)
  {
    hide KeptBody, StringSeen, Marks, Settled, ModeOf, ClearedAt, Seen, Covered;
    ClearedClosed(hm, w, again, weak, h');
    forall o | o in h' ensures h'[o].color != White(!w) && (!hm[o].color.White? ==> !h'[o].color.White?) {
      assert ClearedAt(hm, weak, h', o);
      ClearedColor(hm, weak, h', o);
    }
    forall o, r | o in hm && !hm[o].color.White? && Ref(r) in MarkedBy(hm, hm[o].body)
      ensures r in hm && !hm[r].color.White?
    {
      if o in weak {
        SettledAt(hm, hm[o].body, hm[o].weak, r);
      } else {
        NonwhiteSettled(hm, w, again, weak, o);
        StrongRefers(hm, hm[o].body, r);
        SettledAt(hm, hm[o].body, STRONG, r);
      }
    }
  }

  lemma ClearedColor(h: Objects, ts: seq<Id>, h': Objects, o: Id)
    requires o in h && o in h' && (o in ts ==> h[o].body.TableBody?) && ClearedAt(h, ts, h', o)
    ensures h'[o].color == h[o].color || (h[o].color.White? && h'[o].color.Gray?)
  {
  }

  ghost predicate AllWhite(h: Objects, w: bool) {
    forall o :: o in h ==> h[o].color == White(w)
  }

  // Between a heap and its state after the atomic step: everything reachable
  // is marked, only objects of c are, and the cleared tables are the weak ones.
  ghost predicate MarkedUp(h: Objects, roots: seq<Value>, c: iset<Id>, hm: Objects, ts: seq<Id>, h': Objects) {
    && Progress(h, hm) && TablesCleared(hm, ts, h') && Covered(hm, c)
    && RootsMarked(hm, roots)
    && (forall o, r {:trigger Ref(r) in MarkedBy(hm, hm[o].body)} ::
          o in hm && !hm[o].color.White? && Ref(r) in MarkedBy(hm, hm[o].body) ==> r in hm && !hm[r].color.White?)
    && (forall t :: t in ts ==>
      t in hm && !hm[t].color.White? && hm[t].body.TableBody? && hm[t].weak == ModeOf(hm, hm[t].body) != STRONG)
    && (BlackStrong(h) ==>
      forall t :: t in hm && !hm[t].color.White? && hm[t].body.TableBody? && t !in ts ==>
          ModeOf(hm, hm[t].body) == STRONG)
  }
}
