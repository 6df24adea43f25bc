// What a Lua pattern means: which choices of repetitions let it match, and
// which of these choices is preferred.
module PatternMeaning {
  datatype Option<T> = None | Some(value: T)

  const L_ESC := '%'
  const MAXCAPTURES := 32
  const CAP_UNFINISHED := -1
  const CAP_POSITION := -2

  datatype Capture = Capture(init: nat, len: int)

  // ---------- character classes ----------

  // A string is read up to its end, where there is a zero.
  function At(t: string, i: int): char {
    if 0 <= i < |t| then t[i] else '\0'
  }

  predicate IsLower(c: char) { 'a' <= c <= 'z' }
  predicate IsUpper(c: char) { 'A' <= c <= 'Z' }
  predicate IsAlpha(c: char) { IsLower(c) || IsUpper(c) }
  predicate IsDigit(c: char) { '0' <= c <= '9' }
  predicate IsAlnum(c: char) { IsAlpha(c) || IsDigit(c) }
  predicate IsCntrl(c: char) { c as int < 32 || c as int == 127 }
  predicate IsPunct(c: char) { 33 <= c as int <= 126 && !IsAlnum(c) }
  predicate IsSpace(c: char) { c == ' ' || 9 <= c as int <= 13 }
  predicate IsXDigit(c: char) { IsDigit(c) || 'a' <= c <= 'f' || 'A' <= c <= 'F' }

  function ToLower(c: char): char { if IsUpper(c) then (c as int + 32) as char else c }

  // A letter names a class, its capital the complement; anything else stands for itself.
  predicate MatchClass(c: char, cl: char) {
    var l := ToLower(cl);
    if l !in "acdlpsuwxz" then cl == c
    else
      var res := match l
                 case 'a' => IsAlpha(c)
                 case 'c' => IsCntrl(c)
                 case 'd' => IsDigit(c)
                 case 'l' => IsLower(c)
                 case 'p' => IsPunct(c)
                 case 's' => IsSpace(c)
                 case 'u' => IsUpper(c)
                 case 'w' => IsAlnum(c)
                 case 'x' => IsXDigit(c)
                 case _ => c == '\0';
      if IsLower(cl) then res else !res
  }

  // The place behind the single-character item at p.
  function ClassEnd(pat: string, p: nat): (ep: Option<nat>)
    requires p < |pat|
    ensures ep.Some? ==> p < ep.value <= |pat|
  {
    if pat[p] == L_ESC then (if p + 1 == |pat| then None else Some(p + 2))
    else if pat[p] == '[' then SetEnd(pat, if At(pat, p + 1) == '^' then p + 2 else p + 1)
    else Some(p + 1)
  }

  // The place behind the `]` that closes a set; at least one character comes first.
  function SetEnd(pat: string, p: nat): (ep: Option<nat>)
    requires p <= |pat|
    ensures ep.Some? ==> p < ep.value <= |pat|
    decreases |pat| - p
  {
    if p == |pat| then None
    else
      var q := if pat[p] == L_ESC && p + 1 < |pat| then p + 2 else p + 1;
      if At(pat, q) == ']' then Some(q + 1) else SetEnd(pat, q)
  }

  // Whether c is in the set whose elements are at p up to ec.
  predicate InSet(pat: string, c: char, p: int, ec: int)
    decreases ec - p
  {
    if p >= ec then false
    else if At(pat, p) == L_ESC then MatchClass(c, At(pat, p + 1)) || InSet(pat, c, p + 2, ec)
    else if At(pat, p + 1) == '-' && p + 2 < ec then At(pat, p) <= c <= At(pat, p + 2) || InSet(pat, c, p + 3, ec)
    else At(pat, p) == c || InSet(pat, c, p + 1, ec)
  }

  predicate BracketClass(pat: string, c: char, p: int, ec: int) {
    if At(pat, p + 1) == '^' then !InSet(pat, c, p + 2, ec) else InSet(pat, c, p + 1, ec)
  }

  // Whether c matches the single-character item from p to ep.
  predicate Single(pat: string, c: char, p: nat, ep: nat) {
    match At(pat, p)
    case '.' => true
    case '%' => MatchClass(c, At(pat, p + 1))
    case '[' => BracketClass(pat, c, p, ep - 1)
    case x => x == c
  }

  // ---------- items without choices ----------

  // Where the balanced string that starts at s ends.
  function Balance(src: string, s: nat, x: char, y: char): (e: Option<nat>)
    ensures e.Some? ==> s < e.value <= |src|
  {
    if At(src, s) != x || s >= |src| then None else BalanceFrom(src, s + 1, x, y, 1)
  }

  function BalanceFrom(src: string, s: nat, x: char, y: char, depth: nat): (e: Option<nat>)
    requires depth > 0
    ensures e.Some? ==> s < e.value <= |src|
    decreases |src| - s
  {
    if s >= |src| then None
    else if src[s] == y then (if depth == 1 then Some(s + 1) else BalanceFrom(src, s + 1, x, y, depth - 1))
    else BalanceFrom(src, s + 1, x, y, if src[s] == x then depth + 1 else depth)
  }

  predicate Frontier(src: string, pat: string, s: nat, p: nat, ep: nat) {
    !BracketClass(pat, At(src, s - 1), p, ep - 1) && BracketClass(pat, At(src, s), p, ep - 1)
  }

  // The innermost unfinished capture, or -1.
  function LastOpen(open: seq<bool>): (l: int)
    ensures -1 <= l < |open|
    ensures l >= 0 ==> open[l]
    ensures forall i :: l < i < |open| ==> !open[i]
  {
    if open == [] then -1 else if open[|open| - 1] then |open| - 1 else LastOpen(open[..|open| - 1])
  }

  function Open(caps: seq<Capture>): (r: seq<bool>)
    ensures |r| == |caps|
    ensures forall i :: 0 <= i < |caps| ==> r[i] == (caps[i].len == CAP_UNFINISHED)
  {
    seq(|caps|, i requires 0 <= i < |caps| => caps[i].len == CAP_UNFINISHED)
  }

  function Close(caps: seq<Capture>, s: nat): (r: seq<Capture>)
    requires LastOpen(Open(caps)) >= 0
    ensures |r| == |caps|
  {
    var l := LastOpen(Open(caps));
    caps[l := Capture(caps[l].init, s - caps[l].init)]
  }

  // The text of capture l occurs again at s.
  predicate Repeats(src: string, s: nat, cap: Capture) {
    cap.len >= 0 && s + cap.len <= |src| && cap.init + cap.len <= |src|
    && src[cap.init..cap.init + cap.len] == src[s..s + cap.len]
  }

  predicate BackReference(open: seq<bool>, c: char) {
    var l := c as int - '1' as int;
    0 <= l < |open| && !open[l]
  }

  predicate AllSingle(src: string, pat: string, s: nat, n: nat, p: nat, ep: nat) {
    s + n <= |src| && forall i :: s <= i < s + n ==> Single(pat, src[i], p, ep)
  }

  // ---------- well-formed patterns ----------

  datatype Kind = End | Start(position: bool) | Finish | Balanced | Border | Back | EndOfSubject | Item

  function KindAt(pat: string, p: nat): Kind
    requires p <= |pat|
  {
    if p == |pat| then End
    else if pat[p] == '(' then Start(At(pat, p + 1) == ')')
    else if pat[p] == ')' then Finish
    else if pat[p] == L_ESC && At(pat, p + 1) == 'b' then Balanced
    else if pat[p] == L_ESC && At(pat, p + 1) == 'f' then Border
    else if pat[p] == L_ESC && IsDigit(At(pat, p + 1)) then Back
    else if pat[p] == '$' && p + 1 == |pat| then EndOfSubject
    else Item
  }

  predicate Quantified(c: char) { c == '?' || c == '*' || c == '+' || c == '-' }

  // The pattern from p on raises no error when the captures open before it are these.
  predicate WellFormed(pat: string, p: nat, open: seq<bool>)
    requires p <= |pat|
    decreases |pat| - p
  {
    match KindAt(pat, p)
    case End => LastOpen(open) < 0
    case Start(position) =>
      |open| < MAXCAPTURES && WellFormed(pat, if position then p + 2 else p + 1, open + [!position])
    case Finish => LastOpen(open) >= 0 && WellFormed(pat, p + 1, open[LastOpen(open) := false])
    case Balanced => p + 3 < |pat| && WellFormed(pat, p + 4, open)
    case Border =>
      p + 2 < |pat|
        && pat[p + 2] == '[' && ClassEnd(pat, p + 2).Some? && WellFormed(pat, ClassEnd(pat, p + 2).value, open)
    case Back => BackReference(open, pat[p + 1]) && WellFormed(pat, p + 2, open)
    case EndOfSubject => LastOpen(open) < 0
    case Item =>
      ClassEnd(pat, p).Some? &&
      var ep := ClassEnd(pat, p).value;
      WellFormed(pat, if Quantified(At(pat, ep)) then ep + 1 else ep, open)
  }

  // ---------- matching with given choices ----------

  // Matches the pattern from p on against the subject from s on; choices says
  // how often each quantified item in turn is repeated. The result is where
  // the match ends and the captures made.
  function Run(src: string, pat: string, p: nat, s: nat, caps: seq<Capture>, choices: seq<nat>): Option<(nat,
               seq<Capture>)>
    requires p <= |pat| && WellFormed(pat, p, Open(caps))
    decreases |pat| - p
  {
    match KindAt(pat, p)
    case End => if choices == [] then Some((s, caps)) else None
    case Start(position) =>
      StartForm(caps, s, position);
      Run(src, pat, if position then p + 2 else p + 1, s,
          caps + [Capture(s, if position then CAP_POSITION else CAP_UNFINISHED)], choices)
    case Finish =>
      if s < caps[LastOpen(Open(caps))].init then None
      else
        CloseForm(caps, s);
        Run(src, pat, p + 1, s, Close(caps, s), choices)
    case Balanced =>
      var e := Balance(src, s, pat[p + 2], pat[p + 3]);
      if e.None? then None else Run(src, pat, p + 4, e.value, caps, choices)
    case Border =>
      var ep := ClassEnd(pat, p + 2).value;
      if Frontier(src, pat, s, p + 2, ep) then Run(src, pat, ep, s, caps, choices) else None
    case Back =>
      var cap := caps[pat[p + 1] as int - '1' as int];
      if Repeats(src, s, cap) then Run(src, pat, p + 2, s + cap.len, caps, choices) else None
    case EndOfSubject => if s == |src| && choices == [] then Some((s, caps)) else None
    case Item =>
      var ep := ClassEnd(pat, p).value;
      if !Quantified(At(pat, ep)) then
        (if AllSingle(src, pat, s, 1, p, ep) then Run(src, pat, ep, s + 1, caps, choices) else None)
      else if choices == [] then None
      else
        var n := choices[0];
        if Allowed(At(pat, ep), n) && AllSingle(src, pat, s, n, p, ep) then
          Run(src, pat, ep + 1, s + n, caps, choices[1..])
        else None
  }

  predicate Allowed(quantifier: char, n: nat) {
    match quantifier
    case '?' => n <= 1
    case '+' => n >= 1
    case _ => true
  }

  lemma StartForm(caps: seq<Capture>, s: nat, position: bool)
    ensures Open(caps + [Capture(s, if position then CAP_POSITION else CAP_UNFINISHED)]) == Open(caps) + [!position]
  {
  }

  lemma CloseForm(caps: seq<Capture>, s: nat)
    requires LastOpen(Open(caps)) >= 0 && s >= caps[LastOpen(Open(caps))].init
    ensures Open(Close(caps, s)) == Open(caps)[LastOpen(Open(caps)) := false]
  {
  }

  // Whether the quantified items from p on, in turn, are lazy.
  function Lazy(pat: string, p: nat): seq<bool>
    requires p <= |pat|
    decreases |pat| - p
  {
    match KindAt(pat, p)
    case End => []
    case Start(position) => Lazy(pat, if position then p + 2 else p + 1)
    case Finish => Lazy(pat, p + 1)
    case Balanced => if p + 3 < |pat| then Lazy(pat, p + 4) else []
    case Border =>
      if p + 2 < |pat| && ClassEnd(pat, p + 2).Some? then Lazy(pat, ClassEnd(pat, p + 2).value) else []
    case Back => Lazy(pat, p + 2)
    case EndOfSubject => []
    case Item =>
      if ClassEnd(pat, p).None? then []
      else
        var ep := ClassEnd(pat, p).value;
        if Quantified(At(pat, ep)) then [At(pat, ep) == '-'] + Lazy(pat, ep + 1) else Lazy(pat, ep)
  }

  // c is c' or better: at the first difference a lazy item repeats less, a greedy one more.
  predicate Preferred(lazy: seq<bool>, c: seq<nat>, c': seq<nat>)
    decreases |lazy|
  {
    lazy == [] || c == [] || c' == [] ||
    if c[0] == c'[0] then Preferred(lazy[1..], c[1..], c'[1..])
    else if lazy[0] then c[0] < c'[0] else c[0] > c'[0]
  }

  // ---------- properties of the meaning ----------

  // A successful choice has one number for each quantified item.
  lemma {:induction false} ChoicesCount(src: string, pat: string, p: nat, s: nat, caps: seq<Capture>, c: seq<nat>)
    requires p <= |pat| && WellFormed(pat, p, Open(caps)) && Run(src, pat, p, s, caps, c).Some?
    ensures |c| == |Lazy(pat, p)|
    decreases |pat| - p
  {
    hide LastOpen, ToLower, InSet;
    match KindAt(pat, p)
    case End =>
    case Start(position) =>
      StartForm(caps, s, position);
      ChoicesCount(src, pat, if position then p + 2 else p + 1, s,
                   caps + [Capture(s, if position then CAP_POSITION else CAP_UNFINISHED)], c);
    case Finish =>
      CloseForm(caps, s);
      ChoicesCount(src, pat, p + 1, s, Close(caps, s), c);
    case Balanced => ChoicesCount(src, pat, p + 4, Balance(src, s, pat[p + 2], pat[p + 3]).value, caps, c);
    case Border => ChoicesCount(src, pat, ClassEnd(pat, p + 2).value, s, caps, c);
    case Back => ChoicesCount(src, pat, p + 2, s + caps[pat[p + 1] as int - '1' as int].len, caps, c);
    case EndOfSubject =>
    case Item =>
      var ep := ClassEnd(pat, p).value;
      if Quantified(At(pat, ep)) {
        ChoicesCount(src, pat, ep + 1, s + c[0], caps, c[1..]);
      } else {
        ChoicesCount(src, pat, ep, s + 1, caps, c);
      }
  }

  // Of two choices each preferred to the other there is but one.
  lemma {:induction false} PreferredOnce(lazy: seq<bool>, c: seq<nat>, c': seq<nat>)
    requires |c| == |c'| == |lazy| && Preferred(lazy, c, c') && Preferred(lazy, c', c)
    ensures c == c'
    decreases |lazy|
  {
    if lazy != [] {
      PreferredOnce(lazy[1..], c[1..], c'[1..]);
      assert c == [c[0]] + c[1..] && c' == [c'[0]] + c'[1..];
    }
  }

  // Captures begin and, when finished, end within what has been matched.
  ghost predicate CapturesWithin(caps: seq<Capture>, s: nat) {
    forall i :: 0 <= i < |caps| ==> caps[i].init <= s && caps[i].init + caps[i].len <= s
  }

  lemma WithinMore(caps: seq<Capture>, s: nat)
    requires CapturesWithin(caps, s)
    ensures forall e: nat :: s <= e ==> CapturesWithin(caps, e)
  {
  }

  lemma StartWithin(caps: seq<Capture>, s: nat, len: int)
    requires CapturesWithin(caps, s) && len < 0
    ensures CapturesWithin(caps + [Capture(s, len)], s)
  {
  }

  lemma CloseWithin(caps: seq<Capture>, s: nat)
    requires CapturesWithin(caps, s) && LastOpen(Open(caps)) >= 0
    ensures CapturesWithin(Close(caps, s), s) && caps[LastOpen(Open(caps))].init <= s
  {
  }

  lemma RepeatsWithin(src: string, s: nat, cap: Capture)
    requires Repeats(src, s, cap)
    ensures cap.len >= 0 && s + cap.len <= |src|
  {
  }

  // A match moves forward, stays within the subject, and finishes all captures.
  lemma {:induction false} RunBounds(src: string, pat: string, p: nat, s: nat, caps: seq<Capture>, c: seq<nat>)
    requires p <= |pat| && WellFormed(pat, p, Open(caps)) && s <= |src| && CapturesWithin(caps, s)
    ensures var r := Run(src, pat, p, s, caps, c);
            r.Some? ==> s <= r.value.0 <= |src| && CapturesWithin(r.value.1, r.value.0) && LastOpen(Open(r.value.1)) < 0
    decreases |pat| - p, 1
  {
    hide BracketClass, MatchClass, InSet, Single, LastOpen, SetEnd, BalanceFrom, Repeats, CapturesWithin;
    WithinMore(caps, s);
    match KindAt(pat, p)
    case End =>
    case Start(position) =>
      StartForm(caps, s, position);
      StartWithin(caps, s, if position then CAP_POSITION else CAP_UNFINISHED);
      RunBounds(src, pat, if position then p + 2 else p + 1, s,
                caps + [Capture(s, if position then CAP_POSITION else CAP_UNFINISHED)], c);
    case Finish =>
      CloseWithin(caps, s);
      CloseForm(caps, s);
      RunBounds(src, pat, p + 1, s, Close(caps, s), c);
    case Balanced =>
      var e := Balance(src, s, pat[p + 2], pat[p + 3]);
      if e.Some? { RunBounds(src, pat, p + 4, e.value, caps, c); }
    case Border => RunBounds(src, pat, ClassEnd(pat, p + 2).value, s, caps, c);
    case Back =>
      var cap := caps[pat[p + 1] as int - '1' as int];
      if Repeats(src, s, cap) { RepeatsWithin(src, s, cap); RunBounds(src, pat, p + 2, s + cap.len, caps, c); }
    case EndOfSubject =>
    case Item => RunBoundsItem(src, pat, p, s, caps, c);
  }

  lemma {:induction false} RunBoundsItem(src: string, pat: string, p: nat, s: nat, caps: seq<Capture>, c: seq<nat>)
    requires p < |pat| && KindAt(pat, p).Item? && WellFormed(pat, p, Open(caps)) && s <= |src|
             && CapturesWithin(caps, s)
    ensures var r := Run(src, pat, p, s, caps, c);
            r.Some? ==> s <= r.value.0 <= |src| && CapturesWithin(r.value.1, r.value.0) && LastOpen(Open(r.value.1)) < 0
    decreases |pat| - p, 0
  {
    hide BracketClass, MatchClass, InSet, Single, LastOpen, SetEnd, BalanceFrom, Repeats, CapturesWithin;
    WithinMore(caps, s);
    var ep := ClassEnd(pat, p).value;
    if !Quantified(At(pat, ep)) {
      if AllSingle(src, pat, s, 1, p, ep) { RunBounds(src, pat, ep, s + 1, caps, c); }
    } else if c != [] && AllSingle(src, pat, s, c[0], p, ep) {
      RunBounds(src, pat, ep + 1, s + c[0], caps, c[1..]);
    }
  }

  // ---------- balanced strings ----------

  function Count(t: string, x: char): nat {
    if t == [] then 0 else Count(t[..|t| - 1], x) + if t[|t| - 1] == x then 1 else 0
  }

  // A balanced string has as many closings as openings, and no sooner; without one there always are more openings.
  lemma BalanceCounts(src: string, s: nat, x: char, y: char)
    requires x != y
    ensures Balance(src, s, x, y).None? && s < |src| && src[s] == x ==>
              forall t :: s < t <= |src| ==> Count(src[s..t], x) > Count(src[s..t], y)
    ensures Balance(src, s, x, y).Some? ==> src[s] == x
    ensures var e := Balance(src, s, x, y);
            e.Some? ==> Count(src[s..e.value], x) == Count(src[s..e.value], y) && src[e.value - 1] == y
                        && forall t :: s < t < e.value ==> Count(src[s..t], x) > Count(src[s..t], y)
  {
    if At(src, s) == x && s < |src| {
      assert src[s..s + 1] == [x] && [x][..0] == [];
      BalanceFromCounts(src, s, s + 1, x, y, 1);
    }
  }

  lemma CountStep(src: string, s: nat, t: nat, x: char)
    requires s <= t < |src|
    ensures Count(src[s..t + 1], x) == Count(src[s..t], x) + if src[t] == x then 1 else 0
  {
    assert src[s..t + 1][..t - s] == src[s..t];
  }

  lemma {:induction false} BalanceFromCounts(src: string, s: nat, t: nat, x: char, y: char, depth: nat)
    requires x != y && s < t <= |src| && depth > 0 && Count(src[s..t], x) == Count(src[s..t], y) + depth
    ensures var e := BalanceFrom(src, t, x, y, depth);
            e.Some? ==> Count(src[s..e.value], x) == Count(src[s..e.value], y) && src[e.value - 1] == y
                        && forall u :: t <= u < e.value ==> Count(src[s..u], x) > Count(src[s..u], y)
    ensures BalanceFrom(src, t, x, y, depth).None? ==>
              forall u :: t <= u <= |src| ==> Count(src[s..u], x) > Count(src[s..u], y)
    decreases |src| - t
  {
    hide Count;
    if t < |src| {
      CountStep(src, s, t, x);
      CountStep(src, s, t, y);
      if src[t] == y {
        if depth > 1 { BalanceFromCounts(src, s, t + 1, x, y, depth - 1); }
      } else {
        BalanceFromCounts(src, s, t + 1, x, y, if src[t] == x then depth + 1 else depth);
      }
    }
  }

  // ---------- literal patterns ----------

  const SPECIALS := "^$*+?.([%-"

  predicate Plain(pat: string) { forall i :: 0 <= i < |pat| ==> pat[i] !in SPECIALS }

  predicate OccursAt(src: string, t: string, s: nat) { s + |t| <= |src| && src[s..s + |t|] == t }

  // A pattern without special characters, a closing parenthesis being one too, stands for itself.
  lemma {:induction false} PlainMeans(src: string, pat: string, p: nat, s: nat, c: seq<nat>)
    requires Plain(pat) && ')' !in pat && '\0' !in pat && p <= |pat| && s <= |src|
    ensures WellFormed(pat, p, [])
    ensures Open([]) == []
    ensures var r := Run(src, pat, p, s, [], c);
            if c == [] && OccursAt(src, pat[p..], s) then r.Some? && r.value.0 == s + |pat| - p
                 && r.value.1 == [] else r.None?
    decreases |pat| - p
  {
    assert Open([]) == [];
    if p < |pat| {
      assert pat[p] in pat && pat[p] !in SPECIALS;
      assert ClassEnd(pat, p) == Some(p + 1) && KindAt(pat, p).Item?;
      assert !Quantified(At(pat, p + 1)) by { if p + 1 < |pat| { assert pat[p + 1] !in SPECIALS; } }
      if s < |src| { PlainMeans(src, pat, p + 1, s + 1, c); } else { PlainMeans(src, pat, p + 1, s, c); }
      assert pat[p..] == [pat[p]] + pat[p + 1..];
      OccursStep(src, pat[p], pat[p + 1..], s);
      assert AllSingle(src, pat, s, 1, p, p + 1) <==> s < |src| && src[s] == pat[p];
    } else {
      assert pat[p..] == [];
    }
  }

  lemma OccursStep(src: string, x: char, t: string, s: nat)
    ensures OccursAt(src, [x] + t, s) <==> s < |src| && src[s] == x && OccursAt(src, t, s + 1)
  {
    if s + 1 + |t| <= |src| { assert src[s..s + 1 + |t|] == [src[s]] + src[s + 1..s + 1 + |t|]; }
  }
}
