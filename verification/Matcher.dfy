// The backtracking matcher, with its stack of captures.
module Matcher {
  import opened PatternMeaning

  datatype Error =
    | MalformedEscape
    | MissingBracket
    | MissingSetAfterFrontier
    | UnbalancedPattern
    | TooManyCaptures
    | InvalidPatternCapture
    | InvalidCaptureIndex

  datatype Result = NoMatch | Matched(e: nat) | Failed(error: Error)

  // No choices let the pattern from p on match.
  ghost predicate Hopeless(src: string, pat: string, p: nat, s: nat, caps: seq<Capture>)
    requires p <= |pat| && WellFormed(pat, p, Open(caps))
  {
    forall c :: Run(src, pat, p, s, caps, c).None?
  }

  // The choices c let it match with this result, and no others that do are preferred to them.
  ghost predicate Best(src: string, pat: string, p: nat, s: nat, caps: seq<Capture>, c: seq<nat>, e: nat,
                       caps': seq<Capture>)
    requires p <= |pat| && WellFormed(pat, p, Open(caps))
  {
    && Run(src, pat, p, s, caps, c) == Some((e, caps'))
    && forall c' :: Run(src, pat, p, s, caps, c').Some? ==> Preferred(Lazy(pat, p), c, c')
  }

  // r and the captures left are the right answer for the pattern from p on, if it is well-formed.
  ghost predicate Answer(src: string, pat: string, p: nat, s: nat, caps: seq<Capture>, r: Result, c: seq<nat>,
                         caps': seq<Capture>)
    requires p <= |pat|
  {
    && (r.NoMatch? ==> caps' == caps)
    && (WellFormed(pat, p, Open(caps)) ==>
          match r
          case NoMatch => Hopeless(src, pat, p, s, caps)
          case Matched(e) => Best(src, pat, p, s, caps, c, e, caps')
          case Failed(_) => false)
  }

  class MatchState {
    const src: string
    const pat: string
    var level: nat
    var capture: array<Capture>

    predicate Valid()
      reads this`level, this`capture
    {
      capture.Length == MAXCAPTURES && level <= MAXCAPTURES && '\0' !in pat
    }

    function Caps(): seq<Capture>
      requires Valid()
      reads this`level, this`capture, capture
    {
      capture[..level]
    }

    ghost predicate Started(s: nat)
      requires Valid()
      reads this`level, this`capture, capture
    {
      s <= |src| && forall i :: 0 <= i < level ==> capture[i].init <= s
    }

    // ---------- single characters ----------

    method FindClassEnd(p: nat) returns (ep: Option<nat>, error: Error)
      requires p < |pat| && '\0' !in pat
      ensures ep == ClassEnd(pat, p)
    {
      error := MalformedEscape;
      if pat[p] == L_ESC {
        if At(pat, p + 1) == '\0' {
          return None, MalformedEscape;
        }
        return Some(p + 2), error;
      } else if pat[p] == '[' {
        var q := p + 1;
        if At(pat, q) == '^' {
          q := q + 1;
        }
        while true
          invariant p < q <= |pat| && SetEnd(pat, q) == ClassEnd(pat, p)
          decreases |pat| - q
        {
          if At(pat, q) == '\0' {
            return None, MissingBracket;
          }
          q := q + 1;
          if pat[q - 1] == L_ESC && At(pat, q) != '\0' {
            q := q + 1;
          }
          if At(pat, q) == ']' {
            return Some(q + 1), error;
          }
        }
      }
      return Some(p + 1), error;
    }

    method MatchBracketClass(c: char, p: nat, ec: nat) returns (b: bool)
      ensures b == BracketClass(pat, c, p, ec)
    {
      var sig, q := true, p;
      if At(pat, p + 1) == '^' {
        sig, q := false, p + 1;
      }
      q := q + 1;
      while q < ec
        invariant InSet(pat, c, if sig then p + 1 else p + 2, ec) == InSet(pat, c, q, ec)
        decreases ec - q
      {
        if At(pat, q) == L_ESC {
          q := q + 1;
          if MatchClass(c, At(pat, q)) {
            return sig;
          }
        } else if At(pat, q + 1) == '-' && q + 2 < ec {
          q := q + 2;
          if At(pat, q - 2) <= c <= At(pat, q) {
            return sig;
          }
        } else if At(pat, q) == c {
          return sig;
        }
        q := q + 1;
      }
      return !sig;
    }

    method SingleMatch(c: char, p: nat, ep: nat) returns (b: bool)
      requires p < ep
      ensures b == Single(pat, c, p, ep)
    {
      match At(pat, p) {
        case '.' => b := true;
        case '%' => b := MatchClass(c, At(pat, p + 1));
        case '[' => b := MatchBracketClass(c, p, ep - 1);
        case x => b := x == c;
      }
    }

    method MatchBalance(s: nat, x: char, y: char) returns (e: Option<nat>)
      requires s <= |src|
      ensures e == Balance(src, s, x, y)
    {
      if At(src, s) != x || s >= |src| {
        return None;
      }
      var cont, t := 1, s + 1;
      while t < |src|
        invariant s < t <= |src| && cont > 0 && BalanceFrom(src, t, x, y, cont) == Balance(src, s, x, y)
      {
        if src[t] == y {
          cont := cont - 1;
          if cont == 0 {
            return Some(t + 1);
          }
        } else if src[t] == x {
          cont := cont + 1;
        }
        t := t + 1;
      }
      return None;
    }

    method CaptureToClose() returns (l: int)
      requires Valid()
      ensures l == LastOpen(Open(Caps()))
    {
      l := level - 1;
      while l >= 0
        invariant -1 <= l < level
        invariant forall i :: l < i < level ==> capture[i].len != CAP_UNFINISHED
      {
        if capture[l].len == CAP_UNFINISHED {
          LastOpenIs(Open(Caps()), l);
          return;
        }
        l := l - 1;
      }
      LastOpenIs(Open(Caps()), -1);
    }

    // ---------- captures ----------

    method StartCapture(s: nat, p: nat, what: int) returns (r: Result, ghost c: seq<nat>)
      requires Valid() && Started(s) && p <= |pat|
      modifies this`level, capture
      ensures Valid()
      ensures r.NoMatch? ==> Caps() == old(Caps())
      ensures if old(level) >= 32 then r == Failed(TooManyCaptures)
              else var caps := old(Caps()) + [Capture(s, what)];
                   Answer(src, pat, p, s, caps, r, c, if r.NoMatch? then caps else Caps())
      decreases |pat| - p, 2
    {
      if level >= MAXCAPTURES {
        return Failed(TooManyCaptures), [];
      }
      ghost var caps := Caps();
      capture[level] := Capture(s, what);
      level := level + 1;
      assert Caps() == caps + [Capture(s, what)];
      r, c := Match(s, p);
      if r.NoMatch? {
        level := level - 1;
      }
    }

    method EndCapture(s: nat, p: nat) returns (r: Result, ghost c: seq<nat>)
      requires Valid() && Started(s) && p <= |pat|
      modifies this`level, capture
      ensures Valid()
      ensures r.NoMatch? ==> Caps() == old(Caps())
      ensures if LastOpen(Open(old(Caps()))) < 0 then r == Failed(InvalidPatternCapture)
              else var caps := Close(old(Caps()), s);
                   Answer(src, pat, p, s, caps, r, c, if r.NoMatch? then caps else Caps())
      decreases |pat| - p, 2
    {
      var l := CaptureToClose();
      if l < 0 {
        return Failed(InvalidPatternCapture), [];
      }
      ghost var caps := Caps();
      capture[l] := Capture(capture[l].init, s - capture[l].init);
      assert Caps() == Close(caps, s);
      r, c := Match(s, p);
      if r.NoMatch? {
        assert Caps() == Close(caps, s);
        capture[l] := Capture(capture[l].init, CAP_UNFINISHED);
        assert Caps() == caps;
      }
    }

    // The item %1 to %9: where the text of that capture ends when it occurs again at s.
    method MatchCapture(s: nat, d: char) returns (r: Result)
      requires Valid() && Started(s) && s <= |src|
      ensures r.Failed? <==> !BackReference(Open(Caps()), d)
      ensures !r.Failed? ==>
                var cap := Caps()[d as int - '1' as int];
                r == if Repeats(src, s, cap) then Matched(s + cap.len) else NoMatch
    {
      var l := d as int - '1' as int;
      if l < 0 || l >= level || capture[l].len == CAP_UNFINISHED {
        return Failed(InvalidCaptureIndex);
      }
      var len := capture[l].len;
      if len >= 0 && |src| - s >= len && src[capture[l].init..capture[l].init + len] == src[s..s + len] {
        return Matched(s + len);
      }
      return NoMatch;
    }

    // ---------- repetition ----------

    // Tries the most repetitions first.
    method MaxExpand(s: nat, p: nat, ep: nat) returns (r: Result, ghost n: nat, ghost c: seq<nat>)
      requires Valid() && Started(s) && p < ep < |pat|
      modifies this`level, capture
      ensures Valid()
      ensures Expanded(src, pat, p, ep, s, false, old(Caps()), r, n, c, Caps())
      decreases |pat| - ep, 2
    {
      hide Lazy;
      var i := 0;
      while s + i < |src|
        invariant s + i <= |src| && AllSingle(src, pat, s, i, p, ep)
        invariant Valid() && Caps() == old(Caps()) && Started(s)
      {
        var m := SingleMatch(src[s + i], p, ep);
        if !m { break; }
        i := i + 1;
      }
      MostSingle(src, pat, s, i, p, ep);
      ghost var caps := Caps();
      assert forall k :: 0 <= k < |caps| ==> caps[k] == capture[k];
      var j: int := i;
      while j >= 0
        invariant -1 <= j <= i && Valid() && Caps() == caps
        invariant WellFormed(pat, ep + 1, Open(caps)) ==>
                    forall k: nat :: k > j && AllSingle(src, pat, s, k, p, ep) ==>
                        Hopeless(src, pat, ep + 1, s + k, caps)
      {
        StillStarted(caps, s, s + j);
        AllSingleLess(src, pat, s, i, j, p, ep);
        r, c := Match(s + j, ep + 1);
        n := j;
        if !r.NoMatch? {
          return;
        }
        j := j - 1;
      }
      return NoMatch, 0, [];
    }

    // Tries the fewest repetitions first.
    method MinExpand(start: nat, p: nat, ep: nat) returns (r: Result, ghost n: nat, ghost c: seq<nat>)
      requires Valid() && Started(start) && p < ep < |pat|
      modifies this`level, capture
      ensures Valid()
      ensures Expanded(src, pat, p, ep, start, true, old(Caps()), r, n, c, Caps())
      decreases |pat| - ep, 2
    {
      var s := start;
      ghost var caps := Caps();
      assert forall k :: 0 <= k < |caps| ==> caps[k] == capture[k];
      while true
        invariant start <= s <= |src| && AllSingle(src, pat, start, s - start, p, ep) && Valid() && Caps() == caps
        invariant WellFormed(pat, ep + 1, Open(caps)) ==>
                    forall k: nat :: k < s - start && AllSingle(src, pat, start, k, p, ep) ==>
                                       Hopeless(src, pat, ep + 1, start + k, caps)
        decreases |src| - s
      {
        StillStarted(caps, start, s);
        r, c := Match(s, ep + 1);
        n := s - start;
        if !r.NoMatch? {
          return;
        }
        var m := false;
        if s < |src| {
          m := SingleMatch(src[s], p, ep);
        }
        if !m {
          MostSingle(src, pat, start, n, p, ep);
          return;
        }
        s := s + 1;
      }
    }

    lemma CapsStart(caps: seq<Capture>, s: nat)
      requires Valid() && Started(s) && caps == Caps()
      ensures forall i :: 0 <= i < |caps| ==> caps[i].init <= s
    {
      forall i | 0 <= i < |caps| ensures caps[i].init <= s { assert caps[i] == capture[i]; }
    }

    lemma StillStarted(caps: seq<Capture>, s: nat, t: nat)
      requires Valid() && Caps() == caps && s <= t <= |src| && forall i :: 0 <= i < |caps| ==> caps[i].init <= s
      ensures Started(t)
    {
      forall i | 0 <= i < level ensures capture[i].init <= t { assert Caps()[i] == capture[i]; }
    }

    method Match(s: nat, p: nat) returns (r: Result, ghost c: seq<nat>)
      requires Valid() && Started(s) && p <= |pat|
      modifies this`level, capture
      ensures Valid()
      ensures Answer(src, pat, p, s, old(Caps()), r, c, Caps())
      ensures PatternMeaning.Plain(pat) && old(level) == 0 ==> r == PlainAnswer(src, pat, p, s)
      decreases |pat| - p, 1
    {
      hide Plain, AllSingle, Allowed, SetEnd;
      ghost var caps := Caps();
      CapsStart(caps, s);
      PlainStep(src, pat, p, s);
      assert level == 0 ==> LastOpen(Open(caps)) < 0;
      if p == |pat| {
        return Matched(s), [];
      } else if pat[p] == '(' {
        if At(pat, p + 1) == ')' {
          r, c := StartCapture(s, p + 2, CAP_POSITION);
          StartAnswer(src, pat, p, s, caps, r, c, Caps());
        } else {
          r, c := StartCapture(s, p + 1, CAP_UNFINISHED);
          StartAnswer(src, pat, p, s, caps, r, c, Caps());
        }
      } else if pat[p] == ')' {
        r, c := EndCapture(s, p + 1);
        FinishAnswer(src, pat, p, s, caps, r, c, Caps());
      } else if pat[p] == L_ESC && At(pat, p + 1) == 'b' {
        r, c := BalancedItem(s, p);
      } else if pat[p] == L_ESC && At(pat, p + 1) == 'f' {
        r, c := FrontierItem(s, p);
      } else if pat[p] == L_ESC && IsDigit(At(pat, p + 1)) {
        r := MatchCapture(s, pat[p + 1]);
        c := [];
        if r.Matched? {
          ghost var e := r.e;
          StillStarted(caps, s, r.e);
          r, c := Match(r.e, p + 2);
          BackAnswer(src, pat, p, s, caps, e, r, c, Caps());
        }
      } else if pat[p] == '$' && At(pat, p + 1) == '\0' {
        return if s == |src| then Matched(s) else NoMatch, [];
      } else {
        r, c := SingleItem(s, p);
      }
    }

    method BalancedItem(s: nat, p: nat) returns (r: Result, ghost c: seq<nat>)
      requires Valid() && Started(s) && p < |pat| && KindAt(pat, p).Balanced?
      modifies this`level, capture
      ensures Valid()
      ensures Answer(src, pat, p, s, old(Caps()), r, c, Caps())
      decreases |pat| - p, 0
    {
      ghost var caps := Caps();
      CapsStart(caps, s);
      c := [];
      if At(pat, p + 2) == '\0' || At(pat, p + 3) == '\0' {
        return Failed(UnbalancedPattern), c;
      }
      var e := MatchBalance(s, pat[p + 2], pat[p + 3]);
      if e.None? {
        return NoMatch, c;
      }
      StillStarted(caps, s, e.value);
      r, c := Match(e.value, p + 4);
      BalancedAnswer(src, pat, p, s, caps, r, c, Caps());
    }

    method FrontierItem(s: nat, p: nat) returns (r: Result, ghost c: seq<nat>)
      requires Valid() && Started(s) && p < |pat| && KindAt(pat, p).Border?
      modifies this`level, capture
      ensures Valid()
      ensures Answer(src, pat, p, s, old(Caps()), r, c, Caps())
      decreases |pat| - p, 0
    {
      c := [];
      if At(pat, p + 2) != '[' {
        return Failed(MissingSetAfterFrontier), c;
      }
      var ep, error := FindClassEnd(p + 2);
      if ep.None? {
        return Failed(error), c;
      }
      var previous := if s == 0 then '\0' else src[s - 1];
      var before := MatchBracketClass(previous, p + 2, ep.value - 1);
      var after := MatchBracketClass(At(src, s), p + 2, ep.value - 1);
      if before || !after {
        return NoMatch, c;
      }
      ghost var caps := Caps();
      r, c := Match(s, ep.value);
      FrontierAnswer(src, pat, p, s, caps, r, c, Caps());
    }

    // A single character, perhaps repeated.
    method SingleItem(s: nat, p: nat) returns (r: Result, ghost c: seq<nat>)
      requires Valid() && Started(s) && p < |pat| && KindAt(pat, p).Item?
      modifies this`level, capture
      ensures Valid()
      ensures Answer(src, pat, p, s, old(Caps()), r, c, Caps())
      ensures PatternMeaning.Plain(pat) && old(level) == 0 ==> r == PlainAnswer(src, pat, p, s)
      decreases |pat| - p, 0
    {
      ghost var caps, n := Caps(), 0;
      CapsStart(caps, s);
      PlainStep(src, pat, p, s);
      c := [];
      var end, error := FindClassEnd(p);
      if end.None? {
        return Failed(error), c;
      }
      var ep := end.value;
      var m := false;
      if s < |src| {
        m := SingleMatch(src[s], p, ep);
      }
      if Quantified(At(pat, ep)) {
        r, n, c := RepeatedItem(s, p, ep, m);
        QuantifiedAnswer(src, pat, p, ep, s, caps, r, n, c, Caps());
        c := [n] + c;
      } else if m {
        StillStarted(caps, s, s + 1);
        r, c := Match(s + 1, ep);
        OnceAnswer(src, pat, p, ep, s, caps, r, c, Caps());
      } else {
        return NoMatch, c;
      }
    }

    // A single character with a quantifier; m tells whether it matches once.
    method RepeatedItem(s: nat, p: nat, ep: nat, m: bool) returns (r: Result, ghost n: nat, ghost c: seq<nat>)
      requires Valid() && Started(s) && p < ep < |pat| && Quantified(pat[ep])
      requires m <==> s < |src| && Single(pat, src[s], p, ep)
      modifies this`level, capture
      ensures Valid()
      ensures Repeated(src, pat, p, ep, s, old(Caps()), r, n, c, Caps())
      decreases |pat| - ep, 3
    {
      hide Plain;
      ghost var caps := Caps();
      CapsStart(caps, s);
      r, n, c := NoMatch, 0, [];
      match pat[ep] {
        case '?' =>
          if m {
            StillStarted(caps, s, s + 1);
            r, c := Match(s + 1, ep + 1);
            n := 1;
            if !r.NoMatch? {
              return;
            }
          }
          StillStarted(caps, s, s);
          r, c := Match(s, ep + 1);
          n := 0;
        case '*' =>
          r, n, c := MaxExpand(s, p, ep);
        case '+' =>
          if m {
            StillStarted(caps, s, s + 1);
            r, n, c := MaxExpand(s + 1, p, ep);
            OnceMore(src, pat, p, ep, s, caps, r, n, c, Caps());
            n := n + 1;
          }
        case _ =>
          r, n, c := MinExpand(s, p, ep);
      }
    }

    // ---------- searching ----------

    constructor (src: string, pat: string)
      requires '\0' !in pat
      ensures Valid() && this.src == src && this.pat == pat && fresh(capture)
    {
      this.src, this.pat, level := src, pat, 0;
      capture := new Capture[MAXCAPTURES](_ => Capture(0, 0));
    }

    // The leftmost match from init on of the pattern from p on; an anchored
    // pattern is tried at init only.
    method Find(init: nat, p: nat, anchor: bool) returns (start: nat, r: Result, ghost c: seq<nat>)
      requires Valid() && init <= |src| && p <= |pat|
      modifies this`level, capture
      ensures Valid()
      ensures WellFormed(pat, p, []) ==>
                Leftmost(src, pat, init, p, anchor, start, r, c, Caps())
      ensures PatternMeaning.Plain(pat) && !anchor ==> FirstAnswer(src, pat, init, p, start, r)
    {
      start := init;
      assert Open([]) == [];
      while true
        invariant init <= start <= |src| && Valid() && (anchor ==> start == init)
        invariant PatternMeaning.Plain(pat) ==>
                    forall t: nat :: init <= t < start ==> PlainAnswer(src, pat, p, t).NoMatch?
        invariant WellFormed(pat, p, []) ==> forall t :: init <= t < start ==> Hopeless(src, pat, p, t, [])
        decreases |src| - start
      {
        level := 0;
        assert Caps() == [];
        r, c := Match(start, p);
        if !r.NoMatch? || start == |src| || anchor {
          return;
        }
        start := start + 1;
      }
    }
  }

  // What the matcher makes of a pattern without special characters: a closing
  // parenthesis is an error as soon as it is reached.
  function PlainAnswer(src: string, pat: string, p: nat, s: nat): Result
    requires p <= |pat|
    decreases |pat| - p
  {
    if p == |pat| then Matched(s)
    else if pat[p] == ')' then Failed(InvalidPatternCapture)
    else if s < |src| && src[s] == pat[p] then PlainAnswer(src, pat, p + 1, s + 1)
    else NoMatch
  }

  lemma PlainStep(src: string, pat: string, p: nat, s: nat)
    requires p <= |pat| && '\0' !in pat
    ensures PatternMeaning.Plain(pat) && p < |pat| ==>
              && (KindAt(pat, p).Finish? <==> pat[p] == ')') && (KindAt(pat, p).Finish? || KindAt(pat, p).Item?)
              && ClassEnd(pat, p) == Some(p + 1) && !Quantified(At(pat, p + 1))
              && (s < |src| ==> (Single(pat, src[s], p, p + 1) <==> src[s] == pat[p]))
  {
    if PatternMeaning.Plain(pat) && p < |pat| {
      assert pat[p] !in SPECIALS;
      if p + 1 < |pat| { assert pat[p + 1] !in SPECIALS; }
    }
  }

  ghost predicate FirstAnswer(src: string, pat: string, init: nat, p: nat, start: nat, r: Result)
    requires p <= |pat|
  {
    && init <= start <= |src| && r == PlainAnswer(src, pat, p, start) && (r.NoMatch? ==> start == |src|)
    && forall t: nat :: init <= t < start ==> PlainAnswer(src, pat, p, t).NoMatch?
  }

  // The first place from init on where the pattern can match, and the preferred match there.
  ghost predicate Leftmost(src: string, pat: string, init: nat, p: nat, anchor: bool,
                           start: nat, r: Result, c: seq<nat>, caps: seq<Capture>)
    requires p <= |pat| && WellFormed(pat, p, [])
  {
    assert Open([]) == [];
    match r
    case NoMatch => forall t :: init <= t <= |src| && (anchor ==> t == init) ==> Hopeless(src, pat, p, t, [])
    case Matched(e) =>
      && init <= start <= |src| && (anchor ==> start == init) && Best(src, pat, p, start, [], c, e, caps)
      && forall t :: init <= t < start ==> Hopeless(src, pat, p, t, [])
    case Failed(_) => false
  }

  // The first occurrence of c in n characters from place i on.
  method MemChr(src: string, i: nat, n: nat, c: char) returns (j: int)
    requires i + n <= |src|
    ensures j < 0 ==> forall k :: i <= k < i + n ==> src[k] != c
    ensures j >= 0 ==> i <= j < i + n && src[j] == c && forall k :: i <= k < j ==> src[k] != c
  {
    j := i;
    while j < i + n
      invariant i <= j <= i + n && forall k :: i <= k < j ==> src[k] != c
    {
      if src[j] == c {
        return;
      }
      j := j + 1;
    }
    return -1;
  }

  // The first place from init on where t occurs, or -1.
  method PlainFind(src: string, init: nat, t: string) returns (r: int)
    requires init <= |src|
    ensures r < 0 ==> forall k: nat :: init <= k ==> !OccursAt(src, t, k)
    ensures r >= 0 ==> init <= r && OccursAt(src, t, r) && forall k: nat :: init <= k < r ==> !OccursAt(src, t, k)
  {
    var l1, l2 := |src| - init, |t|;
    if l2 == 0 {
      return init;
    } else if l2 > l1 {
      return -1;
    }
    l2 := l2 - 1;
    l1 := l1 - l2;
    var s1 := init;
    while l1 > 0
      invariant init <= s1 && l1 >= 0 && s1 + l1 + l2 == |src|
      invariant forall k: nat :: init <= k < s1 ==> !OccursAt(src, t, k)
    {
      var j := MemChr(src, s1, l1, t[0]);
      FirstChar(src, t, s1, l1, j);
      if j < 0 {
        return -1;
      }
      RestOccurs(src, t, j);
      if src[j + 1..j + 1 + l2] == t[1..] {
        return j;
      }
      l1 := l1 - (j + 1 - s1);
      s1 := j + 1;
    }
    return -1;
  }

  lemma FirstChar(src: string, t: string, i: nat, n: nat, j: int)
    requires t != [] && i + n <= |src| && (if j < 0 then forall k :: i <= k < i + n ==> src[k] != t[0]
                                           else i <= j < i + n && forall k :: i <= k < j ==> src[k] != t[0])
    ensures forall k: nat :: i <= k < (if j < 0 then i + n else j) ==> !OccursAt(src, t, k)
  {
    forall k: nat | i <= k < (if j < 0 then i + n else j) ensures !OccursAt(src, t, k) {
      if k + |t| <= |src| { assert src[k..k + |t|][0] == src[k]; }
    }
  }

  lemma RestOccurs(src: string, t: string, j: nat)
    requires t != [] && j + |t| <= |src| && src[j] == t[0]
    ensures OccursAt(src, t, j) <==> src[j + 1..j + |t|] == t[1..]
  {
    OccursStep(src, t[0], t[1..], j);
    assert [t[0]] + t[1..] == t;
  }

  // Where the first closing parenthesis is, or the end.
  function ParenAt(pat: string): (q: nat)
    ensures q <= |pat| && ')' !in pat[..q] && (q < |pat| ==> pat[q] == ')')
    ensures q == |pat| <==> ')' !in pat
  {
    if pat == "" then 0
    else if pat[0] == ')' then assert pat[0] in pat; 0
    else
      assert pat == [pat[0]] + pat[1..];
      var q := ParenAt(pat[1..]);
      assert pat[..q + 1] == [pat[0]] + pat[1..][..q];
      q + 1
  }

  lemma {:induction false} PlainAnswerIs(src: string, pat: string, p: nat, s: nat)
    requires p <= ParenAt(pat) && s <= |src|
    ensures var q := ParenAt(pat);
            PlainAnswer(src, pat, p, s) ==
            if !OccursAt(src, pat[p..q], s) then NoMatch
            else if q < |pat| then Failed(InvalidPatternCapture) else Matched(s + q - p)
    decreases |pat| - p
  {
    var q := ParenAt(pat);
    if p < q {
      assert pat[..q][p] == pat[p];
      assert pat[p..q] == [pat[p]] + pat[p + 1..q];
      OccursStep(src, pat[p], pat[p + 1..q], s);
      if s < |src| { PlainAnswerIs(src, pat, p + 1, s + 1); }
    }
  }

  // The answer of a plain search: the first occurrence from i on, or none.
  ghost predicate FirstOccurrence(src: string, pat: string, i: nat, start: nat, r: Result) {
    match r
    case NoMatch => forall k: nat :: i <= k ==> !OccursAt(src, pat, k)
    case Matched(e) => e == start + |pat| && i <= start && OccursAt(src, pat, start)
                       && forall k: nat :: i <= k < start ==> !OccursAt(src, pat, k)
    case Failed(_) => false
  }

  // Whether some place from i on is followed by the text t.
  ghost predicate Occurs(src: string, t: string, i: nat) { exists k: nat :: i <= k && OccursAt(src, t, k) }

  // For a pattern without special characters the matcher answers as the plain
  // search does, unless what precedes a closing parenthesis occurs: then it fails.
  lemma PlainExactly(src: string, pat: string, init: nat, start: nat, r: Result)
    requires FirstAnswer(src, pat, init, 0, start, r) && init <= |src|
    ensures var q := ParenAt(pat);
            if q < |pat| && Occurs(src, pat[..q], init) then r == Failed(InvalidPatternCapture)
            else FirstOccurrence(src, pat, init, start, r)
  {
    var q := ParenAt(pat);
    assert pat[0..q] == pat[..q] && (q == |pat| ==> pat[..q] == pat);
    forall k: nat | k <= |src| ensures PlainAnswer(src, pat, 0, k).NoMatch? <==> !OccursAt(src, pat[..q], k) {
      PlainAnswerIs(src, pat, 0, k);
    }
    PlainAnswerIs(src, pat, 0, start);
    forall k: nat | OccursAt(src, pat, k) ensures OccursAt(src, pat[..q], k) {
      assert src[k..k + |pat|][..q] == src[k..k + q];
    }
    if q < |pat| && Occurs(src, pat[..q], init) {
      var k: nat :| init <= k && OccursAt(src, pat[..q], k);
      assert !PlainAnswer(src, pat, 0, k).NoMatch?;
    }
  }

  // The choices found are the only best ones, so the result is determined.
  lemma BestOnce(src: string, pat: string, p: nat, s: nat, caps: seq<Capture>,
                 c: seq<nat>, e: nat, caps1: seq<Capture>, c': seq<nat>, e': nat, caps2: seq<Capture>)
    requires p <= |pat| && WellFormed(pat, p, Open(caps))
    requires Best(src, pat, p, s, caps, c, e, caps1) && Best(src, pat, p, s, caps, c', e', caps2)
    ensures c == c' && e == e' && caps1 == caps2
  {
    ChoicesCount(src, pat, p, s, caps, c);
    ChoicesCount(src, pat, p, s, caps, c');
    PreferredOnce(Lazy(pat, p), c, c');
  }

  // Where a search that counts from 1, or from the end if negative, begins.
  function StartIndex(init: int, n: nat): (i: nat)
    ensures i <= n
  {
    var pos := if init < 0 then (if init + n + 1 >= 0 then init + n + 1 else 0) else init;
    if pos == 0 then 0 else if pos - 1 > n then n else pos - 1
  }

  // string.find: a plain search if asked for or if nothing in the pattern is special.
  method StrFind(src: string, pat: string, init: int, plain: bool)
    returns (start: nat, r: Result, ghost c: seq<nat>, ghost caps: seq<Capture>)
    requires '\0' !in pat
    ensures var n := |src|;
            var i := if init >= 1 then (if init - 1 < n then init - 1 else n)
                     else if init == 0 then 0 else if n + init >= 0 then n + init else 0;
            if plain || forall k :: 0 <= k < |pat| ==> pat[k] !in "^$*+?.([%-" then
              FirstOccurrence(src, pat, i, start, r)
            else
              var anchor := pat[0] == '^';
              var p := if anchor then 1 else 0;
              WellFormed(pat, p, []) ==> Leftmost(src, pat, i, p, anchor, start, r, c, caps)
  {
    var i := StartIndex(init, |src|);
    start, c, caps := i, [], [];
    if plain || PatternMeaning.Plain(pat) {
      var j := PlainFind(src, i, pat);
      if j < 0 {
        r := NoMatch;
      } else {
        start, r := j, Matched(j + |pat|);
      }
    } else {
      start, r, c, caps := StrMatch(src, pat, init);
    }
  }

  // string.match: always by the matcher. For a pattern without special characters it
  // agrees with string.find just when no text before a closing parenthesis occurs.
  method StrMatch(src: string, pat: string, init: int)
    returns (start: nat, r: Result, ghost c: seq<nat>, ghost caps: seq<Capture>)
    requires '\0' !in pat
    ensures var n := |src|;
            var i := if init >= 1 then (if init - 1 < n then init - 1 else n)
                     else if init == 0 then 0 else if n + init >= 0 then n + init else 0;
            var anchor := At(pat, 0) == '^';
            var p := if anchor then 1 else 0;
            WellFormed(pat, p, []) ==> Leftmost(src, pat, i, p, anchor, start, r, c, caps)
    ensures (forall k :: 0 <= k < |pat| ==> pat[k] !in "^$*+?.([%-") ==>
              var i, q := StartIndex(init, |src|), ParenAt(pat);
              && (FirstOccurrence(src, pat, i, start, r) <==> !(q < |pat| && Occurs(src, pat[..q], i)))
              && (q < |pat| && Occurs(src, pat[..q], i) ==> r == Failed(InvalidPatternCapture))
  {
    var i := StartIndex(init, |src|);
    var ms := new MatchState(src, pat);
    var anchor := At(pat, 0) == '^';
    start, r, c := ms.Find(i, if anchor then 1 else 0, anchor);
    caps := ms.Caps();
    if PatternMeaning.Plain(pat) {
      assert |pat| > 0 ==> pat[0] !in SPECIALS;
      PlainExactly(src, pat, i, start, r);
    }
  }

  // So a closing parenthesis alone is found as it is, but as a pattern it fails on every subject.
  method LoneParenthesis(src: string, init: int) returns (r: Result)
    ensures PatternMeaning.Plain(")") && r == Failed(InvalidPatternCapture)
  {
    var start; ghost var c, caps;
    start, r, c, caps := StrMatch(src, ")", init);
    assert ParenAt(")") == 0 && OccursAt(src, ")"[..0], StartIndex(init, |src|));
  }

  // n is the preferred number of repetitions of a quantified item.
  ghost predicate Repeated(src: string, pat: string, p: nat, ep: nat, s: nat, caps: seq<Capture>,
                           r: Result, n: nat, c: seq<nat>, caps': seq<Capture>)
    requires p < ep < |pat|
  {
    && (r.NoMatch? ==> caps' == caps)
    && (WellFormed(pat, ep + 1, Open(caps)) ==>
          match r
          case NoMatch =>
            forall k: nat :: Allowed(pat[ep], k) && AllSingle(src, pat, s, k, p, ep) ==>
                Hopeless(src, pat, ep + 1, s + k, caps)
          case Matched(e) =>
            && Allowed(pat[ep], n) && AllSingle(src, pat, s, n, p, ep)
            && Best(src, pat, ep + 1, s + n, caps, c, e, caps')
            && forall k: nat ::
                 Allowed(pat[ep], k) && AllSingle(src, pat, s, k, p, ep) && Sooner(pat[ep] == '-', k, n) ==>
                   Hopeless(src, pat, ep + 1, s + k, caps)
          case Failed(_) => false)
  }

  // The first of several repetitions comes on top of those behind it.
  lemma OnceMore(src: string, pat: string, p: nat, ep: nat, s: nat, caps: seq<Capture>, r: Result, n: nat, c: seq<nat>,
                 caps': seq<Capture>)
    requires p < ep < |pat| && pat[ep] == '+' && s < |src| && Single(pat, src[s], p, ep)
    requires Expanded(src, pat, p, ep, s + 1, false, caps, r, n, c, caps')
    ensures Repeated(src, pat, p, ep, s, caps, r, n + 1, c, caps')
  {
    forall k: nat | Allowed('+', k) && AllSingle(src, pat, s, k, p, ep)
        ensures k >= 1 && AllSingle(src, pat, s + 1, k - 1, p, ep) {}
  }

  // ---------- one item, and the answer for the rest ----------

  lemma StartAnswer(src: string, pat: string, p: nat, s: nat, caps: seq<Capture>, r: Result, c: seq<nat>,
                    caps': seq<Capture>)
    requires p < |pat| && KindAt(pat, p).Start? && (r.NoMatch? ==> caps' == caps)
    requires var position := KindAt(pat, p).position;
             var more := caps + [Capture(s, if position then CAP_POSITION else CAP_UNFINISHED)];
             if |caps| >= MAXCAPTURES then r.Failed?
             else Answer(src, pat, if position then p + 2 else p + 1, s, more, r, c, if r.NoMatch? then more else caps')
    ensures Answer(src, pat, p, s, caps, r, c, caps')
  {
    StartForm(caps, s, KindAt(pat, p).position);
  }

  lemma FinishAnswer(src: string, pat: string, p: nat, s: nat, caps: seq<Capture>, r: Result, c: seq<nat>,
                     caps': seq<Capture>)
    requires p < |pat| && KindAt(pat, p).Finish? && (r.NoMatch? ==> caps' == caps)
    requires forall i :: 0 <= i < |caps| ==> caps[i].init <= s
    requires if LastOpen(Open(caps)) < 0 then r.Failed?
             else Answer(src, pat, p + 1, s, Close(caps, s), r, c, if r.NoMatch? then Close(caps, s) else caps')
    ensures Answer(src, pat, p, s, caps, r, c, caps')
  {
    if LastOpen(Open(caps)) >= 0 { CloseForm(caps, s); }
  }

  lemma BackAnswer(src: string, pat: string, p: nat, s: nat, caps: seq<Capture>, e: nat, r: Result, c: seq<nat>,
                   caps': seq<Capture>)
    requires p < |pat| && KindAt(pat, p).Back? && BackReference(Open(caps), pat[p + 1])
    requires var cap := caps[pat[p + 1] as int - '1' as int]; Repeats(src, s, cap) && e == s + cap.len
    requires Answer(src, pat, p + 2, e, caps, r, c, caps')
    ensures Answer(src, pat, p, s, caps, r, c, caps')
  {
  }

  lemma BalancedAnswer(src: string, pat: string, p: nat, s: nat, caps: seq<Capture>, r: Result, c: seq<nat>,
                       caps': seq<Capture>)
    requires p + 3 < |pat| && KindAt(pat, p).Balanced? && Balance(src, s, pat[p + 2], pat[p + 3]).Some?
    requires Answer(src, pat, p + 4, Balance(src, s, pat[p + 2], pat[p + 3]).value, caps, r, c, caps')
    ensures Answer(src, pat, p, s, caps, r, c, caps')
  {
  }

  lemma FrontierAnswer(src: string, pat: string, p: nat, s: nat, caps: seq<Capture>, r: Result, c: seq<nat>,
                       caps': seq<Capture>)
    requires p + 2 < |pat| && KindAt(pat, p).Border? && pat[p + 2] == '[' && ClassEnd(pat, p + 2).Some?
    requires Frontier(src, pat, s, p + 2, ClassEnd(pat, p + 2).value)
    requires Answer(src, pat, ClassEnd(pat, p + 2).value, s, caps, r, c, caps')
    ensures Answer(src, pat, p, s, caps, r, c, caps')
  {
  }

  lemma OnceAnswer(src: string, pat: string, p: nat, ep: nat, s: nat, caps: seq<Capture>, r: Result, c: seq<nat>,
                   caps': seq<Capture>)
    requires p < |pat| && KindAt(pat, p).Item? && ClassEnd(pat, p) == Some(ep) && !Quantified(At(pat, ep))
    requires AllSingle(src, pat, s, 1, p, ep) && Answer(src, pat, ep, s + 1, caps, r, c, caps')
    ensures Answer(src, pat, p, s, caps, r, c, caps')
  {
  }

  lemma QuantifiedAnswer(src: string, pat: string, p: nat, ep: nat, s: nat, caps: seq<Capture>,
                         r: Result, n: nat, c: seq<nat>, caps': seq<Capture>)
    requires p < ep < |pat| && KindAt(pat, p).Item? && ClassEnd(pat, p) == Some(ep) && Quantified(pat[ep])
    requires Repeated(src, pat, p, ep, s, caps, r, n, c, caps')
    ensures Answer(src, pat, p, s, caps, r, [n] + c, caps')
  {
    if WellFormed(pat, p, Open(caps)) {
      forall c' | Run(src, pat, p, s, caps, c').Some?
        ensures r.Matched? && Preferred(Lazy(pat, p), [n] + c, c')
      {
        var k := c'[0];
        assert Run(src, pat, ep + 1, s + k, caps, c'[1..]).Some?;
        assert !Hopeless(src, pat, ep + 1, s + k, caps);
        assert Lazy(pat, p)[1..] == Lazy(pat, ep + 1) && ([n] + c)[1..] == c;
      }
      assert ([n] + c)[1..] == c;
    }
  }

  lemma MostSingle(src: string, pat: string, s: nat, n: nat, p: nat, ep: nat)
    requires s + n <= |src| && (s + n < |src| ==> !Single(pat, src[s + n], p, ep))
    ensures forall k: nat :: AllSingle(src, pat, s, k, p, ep) ==> k <= n
  {
  }

  lemma AllSingleLess(src: string, pat: string, s: nat, n: nat, k: nat, p: nat, ep: nat)
    requires AllSingle(src, pat, s, n, p, ep) && k <= n
    ensures AllSingle(src, pat, s, k, p, ep)
  {
  }

  // k repetitions are tried before n.
  predicate Sooner(lazy: bool, k: nat, n: nat) { if lazy then k < n else k > n }

  // What the expansion of a single-character item came to: it settled for n
  // repetitions, and no more (fewer, if lazy) would do.
  ghost predicate Expanded(src: string, pat: string, p: nat, ep: nat, s: nat, lazy: bool, caps: seq<Capture>,
                           r: Result, n: nat, c: seq<nat>, caps': seq<Capture>)
    requires p < ep < |pat|
  {
    && (r.NoMatch? ==> caps' == caps)
    && (WellFormed(pat, ep + 1, Open(caps)) ==>
          match r
          case NoMatch => forall k: nat :: AllSingle(src, pat, s, k, p, ep) ==> Hopeless(src, pat, ep + 1, s + k, caps)
          case Matched(e) =>
            && AllSingle(src, pat, s, n, p, ep) && Best(src, pat, ep + 1, s + n, caps, c, e, caps')
            && forall k: nat :: AllSingle(src, pat, s, k, p, ep) && Sooner(lazy, k, n) ==>
                             Hopeless(src, pat, ep + 1, s + k, caps)
          case Failed(_) => false)
  }

  lemma LastOpenIs(open: seq<bool>, l: int)
    requires -1 <= l < |open| && (l >= 0 ==> open[l]) && forall i :: l < i < |open| ==> !open[i]
    ensures LastOpen(open) == l
  {
  }
}
