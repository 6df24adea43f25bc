// Marking: what one call of the marking functions may change, the tri-colour
// invariant it keeps, and what is settled when nothing is left to propagate.
module Marking {
  import opened Heap

  ghost predicate Distinct<T(!new)>(s: seq<T>) {
    forall i, j :: 0 <= i < j < |s| ==> s[i] != s[j]
  }

  lemma DistinctHead<T(!new)>(a: seq<T>)
    requires Distinct(a) && a != []
    ensures Distinct(a[1..]) && a[0] !in a[1..]
  {
  }

  lemma DistinctMore<T(!new)>(x: T, a: seq<T>)
    requires Distinct(a)
    ensures x !in a ==> Distinct([x] + a)
  {
  }

  lemma DistinctConcat<T(!new)>(a: seq<T>, b: seq<T>)
    requires Distinct(a) && Distinct(b) && forall x :: x in a ==> x !in b
    ensures Distinct(a + b)
  {
    forall i, j | 0 <= i < j < |a + b| ensures (a + b)[i] != (a + b)[j] {
      if i < |a| <= j { assert a[i] in a && b[j - |a|] in b; }
    }
  }

  // Objects that wait in a list while gray.
  predicate Listed(b: Body) { b.ClosureBody? || b.TableBody? || b.ThreadBody? || b.ProtoBody? }

  ghost predicate Settled(h: Objects, b: Body, m: Mode) {
    forall r {:trigger Ref(r) in Marks(b, m)} :: Ref(r) in Marks(b, m) ==> r in h && !h[r].color.White?
  }

  ghost predicate Allocated(h: Objects) {
    forall o, r :: o in h && Refers(h[o].body, r) ==> r in h
  }

  ghost function Whites(h: Objects): set<Id> { set o | o in h && h[o].color.White? }

  // c is closed under the references a traversal marks.
  ghost predicate Encloses(h: Objects, c: iset<Id>) {
    forall o, r {:trigger Ref(r) in MarkedBy(h, h[o].body)} :: o in c && o in h && Ref(r) in MarkedBy(h, h[o].body) ==>
        r in c
  }

  // Everything marked lies in c.
  ghost predicate Covered(h: Objects, c: iset<Id>) {
    forall o :: o in h && !h[o].color.White? ==> o in c
  }

  // Objects only lose their white.
  ghost predicate Progress(h: Objects, h': Objects) {
    && h'.Keys == h.Keys
    && (forall o :: o in h ==> h'[o].body == h[o].body && h'[o].fixed == h[o].fixed)
    && (forall o :: o in h && h'[o].color.White? ==> h'[o].color == h[o].color)
  }

  lemma ProgressKeeps(h: Objects, h': Objects)
    requires Progress(h, h')
    ensures Whites(h') <= Whites(h) && |Whites(h')| <= |Whites(h)|
    ensures forall b :: ModeOf(h', b) == ModeOf(h, b)
    ensures forall b, m :: Settled(h, b, m) ==> Settled(h', b, m)
    ensures forall c :: Encloses(h, c) ==> Encloses(h', c)
    ensures Allocated(h) ==> Allocated(h')
  {
    Subset(Whites(h'), Whites(h));
    forall c | Encloses(h, c) ensures Encloses(h', c) {
      forall o, r | o in c && o in h' && Ref(r) in MarkedBy(h', h'[o].body) ensures r in c {
        assert Ref(r) in MarkedBy(h, h[o].body);
      }
    }
  }

  lemma StaysEnclosed(h: Objects, h': Objects, c: iset<Id>)
    requires Progress(h, h') && Encloses(h, c) && Allocated(h)
    ensures Encloses(h', c) && Allocated(h')
  {
    ProgressKeeps(h, h');
  }

  lemma Subset<T>(a: set<T>, b: set<T>)
    requires a <= b
    ensures |a| <= |b|
  {
    assert b == a + (b - a);
  }

  // From h and gray list g, marking has reached h' and g': every object it
  // coloured lies in c, and is gray in the list, a gray string, or black
  // with all it refers to marked.
  ghost predicate Marked(h: Objects, g: seq<Id>, h': Objects, g': seq<Id>, c: iset<Id>) {
    && Progress(h, h') && (forall o :: o in h ==> h'[o].weak == h[o].weak)
    && |g| <= |g'| && g' == Top(g, g') + g && Pushed(h, h', Top(g, g')) && Chosen(h, h', Top(g, g'), c)
  }

  // What has been pushed on g to make it g'.
  ghost function Top(g: seq<Id>, g': seq<Id>): seq<Id>
    requires |g| <= |g'|
  {
    g'[..|g'| - |g|]
  }

  ghost predicate Pushed(h: Objects, h': Objects, pushed: seq<Id>)
    requires h'.Keys == h.Keys
  {
    && Distinct(pushed)
    && forall o :: o in pushed ==> o in h && h[o].color.White? && Listed(h[o].body) && h'[o].color.Gray?
  }

  ghost predicate Chosen(h: Objects, h': Objects, pushed: seq<Id>, c: iset<Id>)
    requires h'.Keys == h.Keys
  {
    forall o :: o in h && h'[o].color != h[o].color ==> h[o].color.White? && o in c && MarkedTo(h', o, pushed)
  }

  ghost predicate MarkedTo(h: Objects, o: Id, pushed: seq<Id>)
    requires o in h
  {
    match h[o].body
    case StringBody(_) => h[o].color.Gray?
    case UserdataBody(_, _) => h[o].color.Black? && Settled(h, h[o].body, STRONG)
    case UpvalBody(_) => h[o].color.Black? && Settled(h, h[o].body, STRONG)
    case _ => h[o].color.Gray? && o in pushed
  }

  lemma MarkedNothing(h: Objects, g: seq<Id>, c: iset<Id>)
    ensures Marked(h, g, h, g, c)
  {
  }

  lemma MarkedToStays(h: Objects, o: Id, pushed: seq<Id>, h': Objects, pushed': seq<Id>)
    requires o in h && MarkedTo(h, o, pushed) && Progress(h, h') && h'[o].color == h[o].color
    requires o in pushed ==> o in pushed'
    ensures MarkedTo(h', o, pushed')
  {
  }

  lemma MarkedMore(h: Objects, g: seq<Id>, h1: Objects, g1: seq<Id>, h2: Objects, g2: seq<Id>, c: iset<Id>)
    requires Marked(h, g, h1, g1, c) && Marked(h1, g1, h2, g2, c)
    ensures Marked(h, g, h2, g2, c)
  {
    hide Pushed, Chosen;
    var p1, p2 := Top(g, g1), Top(g1, g2);
    assert Top(g, g2) == p2 + p1;
    PushedMore(h, h1, p1, h2, p2, c);
    ChosenMore(h, h1, p1, h2, p2, p2 + p1, c);
  }

  lemma PushedMore(h: Objects, h1: Objects, p1: seq<Id>, h2: Objects, p2: seq<Id>, c: iset<Id>)
    requires Progress(h, h1) && Progress(h1, h2) && Pushed(h, h1, p1) && Pushed(h1, h2, p2) && Chosen(h1, h2, p2, c)
    ensures Pushed(h, h2, p2 + p1)
  {
    hide Distinct;
    forall x | x in p2 ensures x !in p1 { assert h1[x].color.White?; }
    DistinctConcat(p2, p1);
  }

  lemma ChosenMore(h: Objects, h1: Objects, p1: seq<Id>, h2: Objects, p2: seq<Id>, p: seq<Id>, c: iset<Id>)
    requires Progress(h, h1) && Progress(h1, h2) && Chosen(h, h1, p1, c) && Chosen(h1, h2, p2, c)
    requires forall o :: o in p1 || o in p2 ==> o in p
    ensures Chosen(h, h2, p, c)
  {
    hide MarkedTo;
    forall o | o in h && h2[o].color != h[o].color ensures h[o].color.White? && o in c && MarkedTo(h2, o, p) {
      if h2[o].color != h1[o].color {
        MarkedToStays(h2, o, p2, h2, p);
      } else {
        MarkedToStays(h1, o, p1, h2, p);
      }
    }
  }

  // One object coloured.
  function Colored(h: Objects, o: Id, color: Color): Objects
    requires o in h
  {
    h[o := h[o].(color := color)]
  }

  lemma ColoredKeeps(h: Objects, o: Id, color: Color)
    requires o in h && h[o].color.White? && !color.White?
    ensures Progress(h, Colored(h, o, color)) && |Whites(Colored(h, o, color))| < |Whites(h)|
  {
    assert Whites(Colored(h, o, color)) == Whites(h) - {o};
  }

  // Strings turn gray; the objects traversed later wait in the gray list as well.
  lemma MarkedAlone(h: Objects, g: seq<Id>, o: Id, c: iset<Id>)
    requires o in h && h[o].color.White? && o in c && (h[o].body.StringBody? || Listed(h[o].body))
    ensures Marked(h, g, Colored(h, o, Gray), if h[o].body.StringBody? then g else [o] + g, c)
  {
    var g' := if h[o].body.StringBody? then g else [o] + g;
    assert Top(g, g') == if h[o].body.StringBody? then [] else [o];
  }

  lemma MarkedToWhole(h: Objects, o: Id, pushed: seq<Id>)
    requires o in h && (h[o].body.UserdataBody? || h[o].body.UpvalBody?) && Settled(h, h[o].body, STRONG)
    ensures MarkedTo(Colored(h, o, Black), o, pushed)
  {
  }

  // Userdata and closed upvalues are marked together with what they refer to.
  lemma MarkedWhole(h: Objects, g: seq<Id>, o: Id, color: Color, h2: Objects, g2: seq<Id>, c: iset<Id>)
    requires o in h && h[o].color.White? && o in c && !color.White?
    requires h[o].body.UserdataBody? || h[o].body.UpvalBody?
    requires Marked(Colored(h, o, color), g, h2, g2, c) && Settled(h2, h[o].body, STRONG)
    ensures Marked(h, g, Colored(h2, o, Black), g2, c)
  {
    hide Pushed, Chosen, Settled, Progress;
    ProgressWhole(h, o, color, h2);
    PushedWhole(h, o, color, h2, Top(g, g2));
    ChosenWhole(h, o, color, h2, Top(g, g2), c);
  }

  lemma ProgressWhole(h: Objects, o: Id, color: Color, h2: Objects)
    requires o in h && h[o].color.White? && !color.White? && Progress(Colored(h, o, color), h2)
    ensures Colored(h, o, color).Keys == h.Keys == h2.Keys == Colored(h2, o, Black).Keys
            && Progress(h, Colored(h2, o, Black))
  {
    assert Colored(h, o, color).Keys == h.Keys && Colored(h2, o, Black).Keys == h2.Keys;
  }

  lemma PushedWhole(h: Objects, o: Id, color: Color, h2: Objects, pushed: seq<Id>)
    requires o in h && h[o].color.White? && !color.White? && Progress(Colored(h, o, color), h2)
    requires Pushed(Colored(h, o, color), h2, pushed)
    ensures Colored(h2, o, Black).Keys == h.Keys && Pushed(h, Colored(h2, o, Black), pushed)
  {
    ProgressWhole(h, o, color, h2);
    var h1 := Colored(h, o, color);
    forall x | x in pushed
      ensures x in h && h[x].color.White? && Listed(h[x].body) && Colored(h2, o, Black)[x].color.Gray?
    {
      assert x in h1 && h1[x].color.White?;
    }
  }

  lemma ChosenWhole(h: Objects, o: Id, color: Color, h2: Objects, pushed: seq<Id>, c: iset<Id>)
    requires o in h && h[o].color.White? && o in c && !color.White? && Progress(Colored(h, o, color), h2)
    requires h[o].body.UserdataBody? || h[o].body.UpvalBody?
    requires Chosen(Colored(h, o, color), h2, pushed, c) && Settled(h2, h[o].body, STRONG)
    ensures Chosen(h, Colored(h2, o, Black), pushed, c)
  {
    hide MarkedTo, Settled;
    var h1, h3 := Colored(h, o, color), Colored(h2, o, Black);
    forall x | x in h && h3[x].color != h[x].color ensures h[x].color.White? && x in c && MarkedTo(h3, x, pushed) {
      if x != o {
        MarkedToStays(h2, x, pushed, h3, pushed);
      } else {
        MarkedToWhole(h2, o, pushed);
      }
    }
  }

  // The tri-colour invariant of the propagation phase, w being the current
  // white: no black object refers to a white one, and every gray object waits
  // in one list. The object being traversed, if any, is exempt.
  ghost predicate Tricolour(h: Objects, w: bool, gray: seq<Id>, again: seq<Id>, weak: seq<Id>, busy: int) {
    && (forall o :: o in h ==> h[o].color != White(!w))
    && (forall o :: o in h && h[o].color.Black? ==> !h[o].body.StringBody? && !h[o].body.ThreadBody?)
    && (forall o :: o in h && h[o].color.Black? && o != busy ==> Settled(h, h[o].body, STRONG))
    && Waiting(h, gray, again, weak, busy)
  }

  ghost predicate Waiting(h: Objects, gray: seq<Id>, again: seq<Id>, weak: seq<Id>, busy: int) {
    && (forall o :: o in h && h[o].color.Gray? ==>
          h[o].body.StringBody? || (Listed(h[o].body) && (o in gray || o in again || o in weak)))
    && (forall o :: o in gray || o in again || o in weak ==>
      o in h && Listed(h[o].body) && (h[o].color.Gray? || o == busy))
    && (forall o :: o in again ==> o in h && (h[o].body.TableBody? || h[o].body.ThreadBody?))
    && (forall o :: o in weak ==> o in h && h[o].body.TableBody?)
    && Distinct(gray) && Distinct(again) && Distinct(weak)
    && (forall o :: o in gray ==> o !in again && o !in weak) && (forall o :: o in again ==> o !in weak)
  }

  lemma MarkedKeepsTricolour(h: Objects, w: bool, g: seq<Id>, again: seq<Id>, weak: seq<Id>, busy: int, h': Objects,
                             g': seq<Id>, c: iset<Id>)
    requires Tricolour(h, w, g, again, weak, busy) && Marked(h, g, h', g', c)
    requires busy >= 0 ==> busy in h && !h[busy].color.White?
    ensures Tricolour(h', w, g', again, weak, busy)
  {
    hide Distinct, Settled, Waiting;
    MarkedKeepsWaiting(h, g, again, weak, busy, h', g', c);
    var p := Top(g, g');
    forall o | o in h' && h'[o].color.Black?
      ensures !h'[o].body.StringBody? && !h'[o].body.ThreadBody? && (o != busy ==> Settled(h', h'[o].body, STRONG))
    {
      if h'[o].color != h[o].color {
        assert MarkedTo(h', o, p);
      } else if o != busy {
        SettledStays(h, h', h[o].body, STRONG);
      }
    }
  }

  lemma SettledStays(h: Objects, h': Objects, b: Body, m: Mode)
    requires Progress(h, h') && Settled(h, b, m)
    ensures Settled(h', b, m)
  {
  }

  lemma MarkedKeepsWaiting(h: Objects, g: seq<Id>, again: seq<Id>, weak: seq<Id>, busy: int, h': Objects, g': seq<Id>,
                           c: iset<Id>)
    requires Waiting(h, g, again, weak, busy) && Marked(h, g, h', g', c)
    requires busy >= 0 ==> busy in h && !h[busy].color.White?
    ensures Waiting(h', g', again, weak, busy)
  {
    hide Settled;
    var p := Top(g, g');
    assert g' == p + g;
    forall o | o in h' && h'[o].color.Gray?
      ensures h'[o].body.StringBody? || (Listed(h'[o].body) && (o in g' || o in again || o in weak))
    {
      if h'[o].color != h[o].color { assert MarkedTo(h', o, p); }
    }
    forall o | o in p ensures o !in g && o !in again && o !in weak { assert h[o].color.White?; }
    DistinctConcat(p, g);
  }

  // ---------- one object traversed ----------

  lemma TakenWaits(h: Objects, gray: seq<Id>, again: seq<Id>, weak: seq<Id>)
    requires gray != [] && Waiting(h, gray, again, weak, -1)
    ensures gray[0] in h && h[gray[0]].color.Gray? && Listed(h[gray[0]].body)
  {
    assert gray[0] in gray;
  }

  lemma WaitingTaken(h: Objects, gray: seq<Id>, again: seq<Id>, weak: seq<Id>, h': Objects, again': seq<Id>,
                     weak': seq<Id>)
    requires gray != [] && Waiting(h, gray, again, weak, -1) && Progress(h, h') && gray[0] in h
    requires forall o :: o in h && o != gray[0] ==> h'[o].color == h[o].color
    requires var o := gray[0];
             if h'[o].color.Black? && again' == again && weak' == weak then true
             else if again' == again then h[o].body.TableBody? && weak' == [o] + weak
             else h[o].body.ThreadBody? && weak' == weak && again' == [o] + again
    ensures Waiting(h', gray[1..], again', weak', gray[0])
  {
    hide Distinct;
    assert gray == [gray[0]] + gray[1..];
    DistinctHead(gray);
    DistinctMore(gray[0], again);
    DistinctMore(gray[0], weak);
  }

  // Table o has been taken from the gray list; m is its mode.
  lemma TableTaken(h: Objects, w: bool, gray: seq<Id>, again: seq<Id>, weak: seq<Id>, m: Mode)
    requires gray != [] && Tricolour(h, w, gray, again, weak, -1) && h[gray[0]].body.TableBody?
    ensures Tricolour(Taken(h, gray[0], m), w, gray[1..], again,
            if m == STRONG then weak else [gray[0]] + weak, gray[0])
    ensures Progress(h, Taken(h, gray[0], m))
  {
    hide Settled, Waiting;
    TakenWaits(h, gray, again, weak);
    var o := gray[0];
    var h' := Taken(h, o, m);
    assert Progress(h, h');
    forall x | x in h' && h'[x].color.Black? && x != o ensures Settled(h', h'[x].body, STRONG) {
      SettledStays(h, h', h[x].body, STRONG);
    }
    WaitingTaken(h, gray, again, weak, h', again, if m == STRONG then weak else [o] + weak);
  }

  function Taken(h: Objects, o: Id, m: Mode): Objects
    requires o in h
  {
    h[o := h[o].(color := Black, weak := if m == STRONG then h[o].weak else m)]
  }

  // Another object has been taken from the gray list; threads wait for the atomic phase.
  lemma ObjectTaken(h: Objects, w: bool, gray: seq<Id>, again: seq<Id>, weak: seq<Id>)
    requires gray != [] && Tricolour(h, w, gray, again, weak, -1) && !h[gray[0]].body.TableBody?
    ensures var o := gray[0];
            if h[o].body.ThreadBody? then Tricolour(h, w, gray[1..], [o] + again, weak, o)
            else Tricolour(Colored(h, o, Black), w, gray[1..], again, weak, o) && Progress(h, Colored(h, o, Black))
  {
    hide Settled, Waiting;
    TakenWaits(h, gray, again, weak);
    var o := gray[0];
    if h[o].body.ThreadBody? {
      WaitingTaken(h, gray, again, weak, h, [o] + again, weak);
    } else {
      var h' := Colored(h, o, Black);
      assert Progress(h, h');
      forall x | x in h' && h'[x].color.Black? && x != o ensures Settled(h', h'[x].body, STRONG) {
        SettledStays(h, h', h[x].body, STRONG);
      }
      WaitingTaken(h, gray, again, weak, h', again, weak);
    }
  }

  // The traversal of o is over: a weak table turns gray again.
  lemma Released(h: Objects, w: bool, gray: seq<Id>, again: seq<Id>, weak: seq<Id>, o: Id)
    requires o in h && !h[o].color.White? && Tricolour(h, w, gray, again, weak, o)
    requires if o in again || o in weak then true else h[o].color.Black? && o !in gray && Settled(h, h[o].body, STRONG)
    requires o in again ==> h[o].color.Gray?
    ensures Tricolour(if o in weak then Colored(h, o, Gray) else h, w, gray, again, weak, -1)
  {
    hide Settled, Waiting;
    ReleasedWaits(h, gray, again, weak, o);
    if o in weak {
      var h' := Colored(h, o, Gray);
      assert Progress(h, h');
      forall x | x in h' && h'[x].color.Black? ensures Settled(h', h'[x].body, STRONG) {
        SettledStays(h, h', h[x].body, STRONG);
      }
    }
  }

  lemma ReleasedWaits(h: Objects, gray: seq<Id>, again: seq<Id>, weak: seq<Id>, o: Id)
    requires o in h && Waiting(h, gray, again, weak, o)
    requires if o in again || o in weak then true else h[o].color.Black? && o !in gray
    requires o in again ==> h[o].color.Gray?
    ensures Waiting(if o in weak then Colored(h, o, Gray) else h, gray, again, weak, -1)
  {
    hide Distinct;
  }

  // ---------- progress ----------

  // The objects that propagation may still have to traverse.
  ghost function Work(h: Objects, g: seq<Id>): set<Id> {
    Whites(h) + set o | o in g
  }

  // Each object pushed on the gray list was white before.
  lemma MarkedWork(h: Objects, g: seq<Id>, h': Objects, g': seq<Id>, c: iset<Id>)
    requires Marked(h, g, h', g', c)
    ensures Work(h', g') <= Work(h, g)
  {
    forall o | o in Work(h', g') ensures o in Work(h, g) {
      if o in g' { assert o in Top(g, g') || o in g; }
    }
  }

  lemma TakenWork(h: Objects, g: seq<Id>, h': Objects)
    requires g != [] && g[0] in h && !h[g[0]].color.White? && g[0] !in g[1..] && Progress(h, h')
    ensures Work(h', g[1..]) < Work(h, g)
  {
    assert g[0] in Work(h, g) && g[0] !in Work(h', g[1..]);
  }

  // What waits for the clearing of weak tables, and for nothing else.
  ghost predicate WeakSettled(h: Objects, weak: seq<Id>) {
    forall o :: o in weak ==> o in h && h[o].weak == ModeOf(h, h[o].body) != STRONG && Settled(h, h[o].body, h[o].weak)
  }

  // Black tables were found strong, as long as the mutator does not interfere.
  ghost predicate BlackStrong(h: Objects) {
    forall o :: o in h && h[o].color.Black? && h[o].body.TableBody? ==> ModeOf(h, h[o].body) == STRONG
  }

  lemma BlackBefore(h: Objects, g: seq<Id>, h': Objects, g': seq<Id>, c: iset<Id>, x: Id)
    requires Marked(h, g, h', g', c) && x in h && h'[x].color.Black? && h'[x].body.TableBody?
    ensures h[x].color.Black? && h'[x].body == h[x].body
  {
  }

  lemma BlackStrongMarked(h: Objects, g: seq<Id>, h': Objects, g': seq<Id>, c: iset<Id>, m: Mode, o: Id, h3: Objects)
    requires Marked(h, g, h', g', c) && o in h
    requires h3 == if h[o].body.TableBody? && m != STRONG then Colored(h', o, Gray) else h'
    requires h[o].body.TableBody? ==> m == ModeOf(h, h[o].body)
    requires forall x :: x in h && x != o && h[x].color.Black? && h[x].body.TableBody? ==>
               ModeOf(h, h[x].body) == STRONG
    ensures BlackStrong(h3)
  {
    assert Progress(h, h3);
    forall x | x in h3 && h3[x].color.Black? && h3[x].body.TableBody? ensures ModeOf(h3, h3[x].body) == STRONG {
      BlackBefore(h, g, h', g', c, x);
      hide Marked, Progress;
      ModesStay(h, h3, h[x].body);
    }
  }

  ghost predicate ThreadsSettled(h: Objects, again: seq<Id>) {
    forall o :: o in again ==> o in h && h[o].body.ThreadBody? && Settled(h, h[o].body, STRONG)
  }

  // The state between taking o and marking what it refers to.
  ghost predicate TakenFrom(h: Objects, o: Id, m: Mode, h': Objects, again: seq<Id>, again': seq<Id>, weak: seq<Id>,
                            weak': seq<Id>) {
    && o in h && h'.Keys == h.Keys && h'[o].body == h[o].body && !h'[o].color.White?
    && (forall x :: x in h && x != o ==> h'[x] == h[x])
    && match h[o].body
       case TableBody(_, _, _, _) =>
         again' == again && h'[o].color.Black?
           && if m == STRONG then weak' == weak else weak' == [o] + weak && h'[o].weak == m
       case ThreadBody(_, _) => weak' == weak && again' == [o] + again && h'[o].color.Gray?
       case _ => weak' == weak && again' == again && h'[o].color.Black?
  }

  lemma GrayHead(h: Objects, w: bool, gray: seq<Id>, again: seq<Id>, weak: seq<Id>)
    requires gray != [] && Tricolour(h, w, gray, again, weak, -1)
    ensures gray[0] in h && h[gray[0]].color.Gray? && Listed(h[gray[0]].body) && gray[0] !in again && gray[0] !in weak
    ensures gray[0] !in gray[1..]
  {
    assert gray[0] in gray;
  }

  lemma MarkedRefs(h: Objects, o: Id, m: Mode, c: iset<Id>)
    requires o in h && o in c && Encloses(h, c) && Allocated(h) && m == ModeOf(h, h[o].body)
    ensures forall r :: Ref(r) in Marks(h[o].body, m) ==> r in h && r in c
  {
    forall r | Ref(r) in Marks(h[o].body, m) ensures r in h && r in c {
      assert Ref(r) in MarkedBy(h, h[o].body);
      StrongRefers(h, h[o].body, r);
    }
  }

  lemma MarkedParts(h: Objects, g: seq<Id>, h': Objects, g': seq<Id>, c: iset<Id>)
    requires Marked(h, g, h', g', c)
    ensures Progress(h, h') && forall o :: o in h ==> h'[o].weak == h[o].weak
    ensures Covered(h, c) ==> Covered(h', c)
    ensures forall o :: o in h && !h[o].color.White? ==> h'[o].color == h[o].color
    ensures forall o :: o in g' ==> o in g || (o in h && h[o].color.White?)
  {
    forall o | o in g' ensures o in g || (o in h && h[o].color.White?) {
      assert g' == Top(g, g') + g;
    }
  }

  lemma BlackStrongTaken(h: Objects, o: Id, m: Mode, h': Objects, again: seq<Id>, again': seq<Id>, weak: seq<Id>,
                         weak': seq<Id>)
    requires BlackStrong(h) && TakenFrom(h, o, m, h', again, again', weak, weak') && Progress(h, h')
    ensures forall x :: x in h' && x != o && h'[x].color.Black? && h'[x].body.TableBody? ==>
              ModeOf(h', h'[x].body) == STRONG
  {
    forall x | x in h' && x != o && h'[x].color.Black? && h'[x].body.TableBody?
      ensures ModeOf(h', h'[x].body) == STRONG
    {
      ModesStay(h, h', h[x].body);
    }
  }

  // The traversal of o is over.
  lemma Traversed(h: Objects, again: seq<Id>, weak: seq<Id>, h1: Objects, h2: Objects, h3: Objects, o: Id, m: Mode,
                  gray: seq<Id>, again': seq<Id>, weak': seq<Id>, w: bool, c: iset<Id>)
    requires TakenFrom(h, o, m, h1, again, again', weak, weak') && Progress(h, h1) && Progress(h1, h2)
    requires Tricolour(h2, w, gray, again', weak', o) && Listed(h[o].body) && o !in gray && o !in again && o !in weak
    requires m == ModeOf(h, h[o].body) && Settled(h2, h[o].body, m) && h2[o].color == h1[o].color
    requires forall x :: x in h1 ==> h2[x].weak == h1[x].weak
    requires h3 == if h[o].body.TableBody? && m != STRONG then Colored(h2, o, Gray) else h2
    ensures Tricolour(h3, w, gray, again', weak', -1) && Progress(h, h3)
    ensures WeakSettled(h, weak) ==> WeakSettled(h3, weak')
    ensures ThreadsSettled(h, again) ==> ThreadsSettled(h3, again')
    ensures Whites(h3) == Whites(h2) && (Covered(h2, c) ==> Covered(h3, c))
  {
    hide Tricolour, Settled, ModeOf, Marks, Waiting;
    assert Whites(h3) == Whites(h2) && Progress(h2, h3);
    SettledStays(h2, h3, h[o].body, m);
    ModesStay(h, h3, h[o].body);
    ListsTraversed(h, again, weak, h1, h3, o, m, again', weak');
    TakenReleases(h2, w, gray, again', weak', o, m, h3);
  }

  lemma ModesStay(h: Objects, h': Objects, b: Body)
    requires Progress(h, h')
    ensures ModeOf(h', b) == ModeOf(h, b)
  {
  }

  lemma AgainNotWeak(h: Objects, w: bool, gray: seq<Id>, again: seq<Id>, weak: seq<Id>, o: Id)
    requires Tricolour(h, w, gray, again, weak, o)
    ensures o in again ==> o !in weak
  {
  }

  lemma SettledWhen(h: Objects, b: Body, m: Mode)
    requires forall r :: Ref(r) in Marks(b, m) ==> r in h && !h[r].color.White?
    ensures Settled(h, b, m)
  {
  }

  lemma TakenReleases(h: Objects, w: bool, gray: seq<Id>, again: seq<Id>, weak: seq<Id>, o: Id, m: Mode, h': Objects)
    requires o in h && Tricolour(h, w, gray, again, weak, o) && Listed(h[o].body) && o !in gray
    requires Settled(h, h[o].body, m) && (h[o].body.TableBody? && m != STRONG ==> o in weak)
    requires h[o].body.ThreadBody? ==> o in again && h[o].color.Gray?
    requires !h[o].body.TableBody? || m == STRONG ==>
               h[o].body.ThreadBody? || (o !in again && o !in weak && h[o].color.Black?)
    requires h[o].body.TableBody? ==> o !in again && h[o].color.Black?
    requires h' == if h[o].body.TableBody? && m != STRONG then Colored(h, o, Gray) else h
    ensures Tricolour(h', w, gray, again, weak, -1)
  {
    hide Tricolour, Waiting;
    if !h[o].body.TableBody? {
      assert Marks(h[o].body, m) == Marks(h[o].body, STRONG);
      SameMarks(h, h[o].body, m, STRONG);
    }
    AgainNotWeak(h, w, gray, again, weak, o);
    Released(h, w, gray, again, weak, o);
  }

  lemma ListsTraversed(h: Objects, again: seq<Id>, weak: seq<Id>, h1: Objects, h': Objects, o: Id, m: Mode,
                       again': seq<Id>, weak': seq<Id>)
    requires TakenFrom(h, o, m, h1, again, again', weak, weak') && Progress(h, h1) && Progress(h, h') && o !in weak
    requires forall x :: x in h1 ==> h'[x].weak == h1[x].weak
    requires m == ModeOf(h', h[o].body) && Settled(h', h[o].body, m)
    ensures WeakSettled(h, weak) ==> WeakSettled(h', weak')
    ensures ThreadsSettled(h, again) ==> ThreadsSettled(h', again')
  {
    hide ModeOf, Settled;
    if WeakSettled(h, weak) {
      forall x | x in weak'
        ensures x in h' && h'[x].weak == ModeOf(h', h'[x].body) != STRONG && Settled(h', h'[x].body, h'[x].weak)
      {
        if x in weak {
          ModesStay(h, h', h[x].body);
          SettledStays(h, h', h[x].body, h[x].weak);
        }
      }
    }
    if ThreadsSettled(h, again) {
      forall x | x in again' ensures x in h' && h'[x].body.ThreadBody? && Settled(h', h'[x].body, STRONG) {
        if x in again {
          SettledStays(h, h', h[x].body, STRONG);
        } else {
          assert Marks(h[o].body, m) == Marks(h[o].body, STRONG);
          SameMarks(h', h[o].body, m, STRONG);
        }
      }
    }
  }

  lemma SameMarks(h: Objects, b: Body, m: Mode, m': Mode)
    requires Marks(b, m) == Marks(b, m') && Settled(h, b, m)
    ensures Settled(h, b, m')
  {
  }

  // ---------- the steps of the atomic phase ----------

  ghost predicate NonwhiteClosed(h: Objects) {
    forall o, r :: o in h && !h[o].color.White? && Refers(h[o].body, r) ==> r in h && !h[r].color.White?
  }

  ghost predicate RootsIn(h: Objects, roots: seq<Value>, c: iset<Id>) {
    forall r :: Ref(r) in roots ==> r in h && r in c
  }

  ghost predicate RootsMarked(h: Objects, roots: seq<Value>) {
    forall r :: Ref(r) in roots ==> r in h && !h[r].color.White?
  }

  lemma RootsStay(h: Objects, h': Objects, roots: seq<Value>)
    requires Progress(h, h')
    ensures RootsMarked(h, roots) ==> RootsMarked(h', roots)
    ensures forall c :: RootsIn(h, roots, c) ==> RootsIn(h', roots, c)
  {
  }

  lemma ProgressTwice(h: Objects, h1: Objects, h2: Objects)
    requires Progress(h, h1) && Progress(h1, h2)
    ensures Progress(h, h2)
  {
  }

  lemma NothingMarkedYet(h: Objects, w: bool)
    requires forall o :: o in h ==> h[o].color == White(w)
    ensures Tricolour(h, w, [], [], [], -1) && BlackStrong(h)
  {
  }

  lemma GlobalsFollow(h: Objects, o: Id, c: iset<Id>)
    requires Allocated(h) && Encloses(h, c) && o in h && o in c
    ensures h[o].body.ThreadBody? && h[o].body.globals.Ref? ==> h[o].body.globals.id in h && h[o].body.globals.id in c
  {
    var b := h[o].body;
    if b.ThreadBody? && b.globals.Ref? {
      assert Marks(b, STRONG)[0] == b.globals;
      assert Refers(b, b.globals.id) && Ref(b.globals.id) in MarkedBy(h, b);
    }
  }

  lemma RootsSeq(mainthread: Id, running: Id, registry: Value, mt: seq<Value>)
    ensures forall r {:trigger Ref(r)} :: Ref(r) in [Ref(mainthread), Ref(running), registry] + mt <==>
              r == mainthread || r == running || registry == Ref(r) || Ref(r) in mt
  {
  }

  lemma RunningSeq(running: Id, mt: seq<Value>)
    ensures forall r {:trigger Ref(r)} :: Ref(r) in [Ref(running)] + mt <==> r == running || Ref(r) in mt
  {
  }

  lemma MarkedBlackStrong(h: Objects, g: seq<Id>, h': Objects, g': seq<Id>, c: iset<Id>)
    requires Marked(h, g, h', g', c) && BlackStrong(h)
    ensures BlackStrong(h')
  {
    forall x | x in h' && h'[x].color.Black? && h'[x].body.TableBody? ensures ModeOf(h', h'[x].body) == STRONG {
      ModesStay(h, h', h[x].body);
    }
  }

  lemma WeakAgain(h: Objects, w: bool, again: seq<Id>, weak: seq<Id>)
    requires Tricolour(h, w, [], again, weak, -1)
    ensures Tricolour(h, w, weak, again, [], -1)
  {
  }

  lemma GrayAgain(h: Objects, w: bool, again: seq<Id>, weak: seq<Id>)
    requires Tricolour(h, w, [], again, weak, -1)
    ensures Tricolour(h, w, again, [], weak, -1) && ThreadsSettled(h, [])
  {
  }

  lemma NoneSettled(h: Objects)
    ensures WeakSettled(h, [])
  {
  }

  lemma WeakListed(h: Objects, w: bool, again: seq<Id>, weak: seq<Id>)
    requires Tricolour(h, w, [], again, weak, -1)
    ensures Distinct(weak) && forall t :: t in weak ==> t in h && h[t].body.TableBody?
  {
  }

  lemma FreshInList(xs: seq<Id>, i: nat)
    requires Distinct(xs) && i < |xs|
    ensures xs[i] !in xs[..i]
  {
  }

  // ---------- writes by the mutator ----------

  function Written(h: Objects, o: Id, b: Body): Objects
    requires o in h
  {
    h[o := h[o].(body := b)]
  }

  // b is what a body may become when v is stored in it.
  ghost predicate Stores(b: Body, b': Body, v: Value) {
    SameKind(b, b') && forall r :: Refers(b', r) ==> Refers(b, r) || v == Ref(r)
  }

  // A body of the same kind; a string never changes.
  predicate SameKind(b: Body, b': Body) {
    match b
    case StringBody(_) => b' == b
    case UserdataBody(_, _) => b'.UserdataBody?
    case UpvalBody(_) => b'.UpvalBody?
    case ClosureBody(_, _, _) => b'.ClosureBody?
    case ProtoBody(_, _, _, _, _) => b'.ProtoBody?
    case TableBody(_, _, _, _) => b'.TableBody?
    case ThreadBody(_, _) => b'.ThreadBody?
  }

  // All that o refers to is marked, except perhaps v.
  ghost predicate SettledBut(h: Objects, o: Id, v: Value)
    requires o in h
  {
    forall r :: Refers(h[o].body, r) ==> r in h && (!h[r].color.White? || v == Ref(r))
  }

  // Storing v in o leaves the invariant, but o may be black and v white.
  lemma WriteTricolour(h: Objects, w: bool, gray: seq<Id>, again: seq<Id>, weak: seq<Id>, o: Id, b: Body, v: Value)
    requires Tricolour(h, w, gray, again, weak, -1) && o in h && Stores(h[o].body, b, v) && (v.Ref? ==> v.id in h)
    ensures Tricolour(Written(h, o, b), w, gray, again, weak, o)
    ensures h[o].color.Black? ==> o !in gray && o !in again && o !in weak && SettledBut(Written(h, o, b), o, v)
    ensures !h[o].color.Black? ==> Tricolour(Written(h, o, b), w, gray, again, weak, -1)
  {
    hide Distinct, Marks, Waiting;
    var h' := Written(h, o, b);
    forall x | x in h && x != o && h[x].color.Black? ensures Settled(h', h'[x].body, STRONG) {
      forall r | Ref(r) in Marks(h'[x].body, STRONG) ensures r in h' && !h'[r].color.White? {
        assert Ref(r) in Marks(h[x].body, STRONG);
      }
    }
    WaitingWritten(h, gray, again, weak, o, b);
  }

  lemma WaitingWritten(h: Objects, gray: seq<Id>, again: seq<Id>, weak: seq<Id>, o: Id, b: Body)
    requires Waiting(h, gray, again, weak, -1) && o in h && SameKind(h[o].body, b)
    ensures Waiting(Written(h, o, b), gray, again, weak, -1) && Waiting(Written(h, o, b), gray, again, weak, o)
    ensures h[o].color.Black? ==> o !in gray && o !in again && o !in weak
  {
    hide Distinct;
  }

  // The forward barrier marked v, or v needed no barrier.
  lemma WriteSettled(h: Objects, w: bool, gray: seq<Id>, again: seq<Id>, weak: seq<Id>, o: Id, v: Value)
    requires Tricolour(h, w, gray, again, weak, o) && o in h && h[o].color.Black? && o !in gray && o !in again
             && o !in weak
    requires SettledBut(h, o, v) && (v.Ref? && v.id in h ==> !h[v.id].color.White?)
    ensures Tricolour(h, w, gray, again, weak, -1)
  {
    hide Distinct, Marks, Waiting;
    forall r | Ref(r) in Marks(h[o].body, STRONG) ensures r in h && !h[r].color.White? {
      assert Refers(h[o].body, r);
    }
    Released(h, w, gray, again, weak, o);
  }

  // The backward barrier made the table gray again.
  lemma BackTricolour(h: Objects, w: bool, gray: seq<Id>, again: seq<Id>, weak: seq<Id>, o: Id)
    requires Tricolour(h, w, gray, again, weak, o) && o in h && h[o].color.Black? && h[o].body.TableBody?
    requires o !in gray && o !in again && o !in weak
    ensures Tricolour(Colored(h, o, Gray), w, gray, [o] + again, weak, -1)
  {
    hide Settled, Waiting;
    var h' := Colored(h, o, Gray);
    assert Progress(h, h');
    forall x | x in h' && h'[x].color.Black? ensures Settled(h', h'[x].body, STRONG) {
      SettledStays(h, h', h[x].body, STRONG);
    }
    BackWaiting(h, gray, again, weak, o);
  }

  lemma BackWaiting(h: Objects, gray: seq<Id>, again: seq<Id>, weak: seq<Id>, o: Id)
    requires Waiting(h, gray, again, weak, o) && o in h && h[o].color.Black? && h[o].body.TableBody?
    requires o !in gray && o !in again && o !in weak
    ensures Waiting(Colored(h, o, Gray), gray, [o] + again, weak, -1)
  {
    DistinctConcat([o], again);
  }

  // A new object, white and not yet referred to.
  lemma NewTricolour(h: Objects, w: bool, gray: seq<Id>, again: seq<Id>, weak: seq<Id>, o: Id, x: Object)
    requires Tricolour(h, w, gray, again, weak, -1) && o !in h && x.color == White(w)
    ensures Tricolour(h[o := x], w, gray, again, weak, -1)
  {
    hide Distinct, Marks;
    var h' := h[o := x];
    forall y | y in h' && h'[y].color.Black? ensures Settled(h', h'[y].body, STRONG) {
      assert Settled(h, h[y].body, STRONG);
    }
  }
}
