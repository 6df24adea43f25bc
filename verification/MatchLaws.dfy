// What particular patterns match, told in characters and places alone.
module MatchLaws {
  import opened PatternMeaning
  import opened Matcher

  // ---------- single steps of a match ----------

  lemma AtItem(src: string, pat: string, p: nat, ep: nat, s: nat, caps: seq<Capture>, c: seq<nat>)
    requires p < |pat| && KindAt(pat, p).Item? && ClassEnd(pat, p) == Some(ep) && !Quantified(At(pat, ep))
    requires WellFormed(pat, ep, Open(caps))
    ensures WellFormed(pat, p, Open(caps))
    ensures Lazy(pat, p) == Lazy(pat, ep)
    ensures Run(src, pat, p, s, caps, c) ==
            if s < |src| && Single(pat, src[s], p, ep) then Run(src, pat, ep, s + 1, caps, c) else None
  {
  }

  lemma AtQuantified(src: string, pat: string, p: nat, ep: nat, s: nat, caps: seq<Capture>, c: seq<nat>)
    requires p < |pat| && KindAt(pat, p).Item? && ClassEnd(pat, p) == Some(ep) && Quantified(At(pat, ep))
    requires WellFormed(pat, ep + 1, Open(caps))
    ensures WellFormed(pat, p, Open(caps))
    ensures Lazy(pat, p) == [pat[ep] == '-'] + Lazy(pat, ep + 1)
    ensures Run(src, pat, p, s, caps, c) ==
            if c != [] && Allowed(pat[ep], c[0]) && AllSingle(src, pat, s, c[0], p, ep) then
              Run(src, pat, ep + 1, s + c[0], caps, c[1..])
            else None
  {
  }

  lemma AtEnd(src: string, pat: string, s: nat, c: seq<nat>)
    ensures Open([]) == []
    ensures WellFormed(pat, |pat|, []) && Lazy(pat, |pat|) == []
    ensures Run(src, pat, |pat|, s, [], c) == if c == [] then Some((s, [])) else None
  {
  }

  lemma AtEndOf(src: string, pat: string, s: nat, caps: seq<Capture>, c: seq<nat>)
    requires forall i :: 0 <= i < |caps| ==> caps[i].len != -1
    ensures WellFormed(pat, |pat|, Open(caps)) && Lazy(pat, |pat|) == []
    ensures Run(src, pat, |pat|, s, caps, c) == if c == [] then Some((s, caps)) else None
  {
  }

  // An opening parenthesis begins a capture here.
  lemma AtOpening(src: string, pat: string, p: nat, s: nat, caps: seq<Capture>, c: seq<nat>)
    requires p < |pat| && pat[p] == '(' && At(pat, p + 1) != ')' && |caps| < 32
    requires WellFormed(pat, p + 1, Open(caps + [Capture(s, -1)]))
    ensures WellFormed(pat, p, Open(caps)) && Lazy(pat, p) == Lazy(pat, p + 1)
    ensures Run(src, pat, p, s, caps, c) == Run(src, pat, p + 1, s, caps + [Capture(s, -1)], c)
  {
    StartForm(caps, s, false);
  }

  // `()` captures the place.
  lemma AtPlace(src: string, pat: string, p: nat, s: nat, caps: seq<Capture>, c: seq<nat>)
    requires p + 1 < |pat| && pat[p] == '(' && pat[p + 1] == ')' && |caps| < 32
    requires WellFormed(pat, p + 2, Open(caps + [Capture(s, -2)]))
    ensures WellFormed(pat, p, Open(caps)) && Lazy(pat, p) == Lazy(pat, p + 2)
    ensures Run(src, pat, p, s, caps, c) == Run(src, pat, p + 2, s, caps + [Capture(s, -2)], c)
  {
    StartForm(caps, s, true);
  }

  // A closing parenthesis ends the last capture that is open: it is the text from there to here.
  lemma AtClosing(src: string, pat: string, p: nat, s: nat, caps: seq<Capture>, l: nat, c: seq<nat>)
    requires p < |pat| && pat[p] == ')' && l < |caps| && caps[l].len == -1 && caps[l].init <= s
    requires forall i :: l < i < |caps| ==> caps[i].len != -1
    requires WellFormed(pat, p + 1, Open(caps[l := Capture(caps[l].init, s - caps[l].init)]))
    ensures WellFormed(pat, p, Open(caps)) && Lazy(pat, p) == Lazy(pat, p + 1)
    ensures Run(src, pat, p, s, caps, c) ==
            Run(src, pat, p + 1, s, caps[l := Capture(caps[l].init, s - caps[l].init)], c)
  {
    assert LastOpen(Open(caps)) == l;
    CloseForm(caps, s);
  }

  // `%1` to `%9` repeat the text of a capture that is closed.
  lemma AtReference(src: string, pat: string, p: nat, s: nat, caps: seq<Capture>, c: seq<nat>)
    requires p + 1 < |pat| && pat[p] == '%' && '1' <= pat[p + 1] <= '9' && pat[p + 1] as int - '1' as int < |caps|
    requires caps[pat[p + 1] as int - '1' as int].len >= 0 && WellFormed(pat, p + 2, Open(caps))
    ensures WellFormed(pat, p, Open(caps)) && Lazy(pat, p) == Lazy(pat, p + 2)
    ensures var i, n := caps[pat[p + 1] as int - '1' as int].init, caps[pat[p + 1] as int - '1' as int].len;
            Run(src, pat, p, s, caps, c) ==
            if i + n <= |src| && s + n <= |src| && src[i..i + n] == src[s..s + n] then
              Run(src, pat, p + 2, s + n, caps, c)
            else None
  {
  }

  // ---------- one item ----------

  // A pattern that is one item matches the first character that it accepts.
  method OneItem(src: string, pat: string) returns (start: nat, found: bool)
    requires '\0' !in pat && pat != "" && pat[0] != '^'
    requires KindAt(pat, 0).Item? && ClassEnd(pat, 0) == Some(|pat|)
    ensures found ==> start < |src| && Single(pat, src[start], 0, |pat|)
    ensures forall i :: 0 <= i < (if found then start else |src|) ==> !Single(pat, src[i], 0, |pat|)
  {
    var r; ghost var c, caps;
    start, r, c, caps := StrMatch(src, pat, 1);
    found := r.Matched?;
    forall s: nat, d ensures OneItemAt(src, pat, s, d) { OneItemRuns(src, pat, s, d); }
    if |src| >= 0 { OneItemRuns(src, pat, 0, []); }
    forall i | 0 <= i < (if found then start else |src|) ensures !Single(pat, src[i], 0, |pat|) {
      assert OneItemAt(src, pat, i, []) && Hopeless(src, pat, 0, i, []);
    }
    if found { assert OneItemAt(src, pat, start, c); }
  }

  ghost predicate OneItemAt(src: string, pat: string, s: nat, c: seq<nat>) {
    && Open([]) == [] && WellFormed(pat, 0, [])
    && var e: nat := s + 1;
       Run(src, pat, 0, s, [], c) ==
       if c == [] && s < |src| && Single(pat, src[s], 0, |pat|) then Some((e, [])) else None
  }

  lemma OneItemRuns(src: string, pat: string, s: nat, c: seq<nat>)
    requires pat != "" && KindAt(pat, 0).Item? && ClassEnd(pat, 0) == Some(|pat|)
    ensures OneItemAt(src, pat, s, c)
  {
    AtEnd(src, pat, s + 1, c);
    AtItem(src, pat, 0, |pat|, s, [], c);
  }

  // ---------- character classes ----------

  lemma SmallLetter(c: char, x: char)
    requires x in "acdlpsuwxz"
    ensures MatchClass(c, x) <==>
              match x
              case 'a' => 'a' <= c <= 'z' || 'A' <= c <= 'Z'
              case 'c' => c as int <= 31 || c as int == 127
              case 'd' => '0' <= c <= '9'
              case 'l' => 'a' <= c <= 'z'
              case 'p' => '!' <= c <= '/' || ':' <= c <= '@' || '[' <= c <= '`' || '{' <= c <= '~'
              case 's' => c == ' ' || 9 <= c as int <= 13
              case 'u' => 'A' <= c <= 'Z'
              case 'w' => 'a' <= c <= 'z' || 'A' <= c <= 'Z' || '0' <= c <= '9'
              case 'x' => '0' <= c <= '9' || 'a' <= c <= 'f' || 'A' <= c <= 'F'
              case _ => c as int == 0
  {
  }

  lemma Capital(c: char, x: char)
    requires x in "acdlpsuwxz"
    ensures MatchClass(c, (x as int - 32) as char) <==> !MatchClass(c, x)
  {
  }

  // Whether the class %x accepts the character, by a search for it in a subject of this character alone.
  method ClassMatches(c: char, x: char) returns (b: bool)
    requires x in "acdlpsuwxzACDLPSUWXZ"
    ensures b == MatchClass(c, x)
  {
    hide MatchClass;
    var pat := ['%', x];
    assert KindAt(pat, 0).Item? && ClassEnd(pat, 0) == Some(2);
    b := Accepts(c, pat);
  }

  // Which characters each class accepts; its capital accepts just the others.
  method ClassItem(c: char, x: char) returns (b: bool)
    requires x in "acdlpsuwxzACDLPSUWXZ"
    ensures b <==>
              match x
              case 'a' => 'a' <= c <= 'z' || 'A' <= c <= 'Z'
              case 'c' => c as int <= 31 || c as int == 127
              case 'd' => '0' <= c <= '9'
              case 'l' => 'a' <= c <= 'z'
              case 'p' => '!' <= c <= '/' || ':' <= c <= '@' || '[' <= c <= '`' || '{' <= c <= '~'
              case 's' => c == ' ' || 9 <= c as int <= 13
              case 'u' => 'A' <= c <= 'Z'
              case 'w' => 'a' <= c <= 'z' || 'A' <= c <= 'Z' || '0' <= c <= '9'
              case 'x' => '0' <= c <= '9' || 'a' <= c <= 'f' || 'A' <= c <= 'F'
              case 'z' => c as int == 0
              case 'A' => !('a' <= c <= 'z' || 'A' <= c <= 'Z')
              case 'C' => !(c as int <= 31 || c as int == 127)
              case 'D' => !('0' <= c <= '9')
              case 'L' => !('a' <= c <= 'z')
              case 'P' => !('!' <= c <= '/' || ':' <= c <= '@' || '[' <= c <= '`' || '{' <= c <= '~')
              case 'S' => !(c == ' ' || 9 <= c as int <= 13)
              case 'U' => !('A' <= c <= 'Z')
              case 'W' => !('a' <= c <= 'z' || 'A' <= c <= 'Z' || '0' <= c <= '9')
              case 'X' => !('0' <= c <= '9' || 'a' <= c <= 'f' || 'A' <= c <= 'F')
              case _ => c as int != 0
  {
    if 'a' <= x {
      SmallLetter(c, x);
    } else {
      SmallLetter(c, (x as int + 32) as char);
      Capital(c, (x as int + 32) as char);
    }
    hide MatchClass;
    b := ClassMatches(c, x);
  }

  // ---------- sets, escapes and the dot ----------

  // `[lo-hix]` and `[^lo-hix]`.
  method RangeItem(c: char, lo: char, hi: char, x: char) returns (inside: bool, outside: bool)
    requires lo !in "^%" && hi !in "%]" && x !in "%]" && lo != '\0' && hi != '\0' && x != '\0'
    ensures inside <==> lo <= c <= hi || c == x
    ensures outside <==> !(lo <= c <= hi || c == x)
  {
    var pat, pat' := ['[', lo, '-', hi, x, ']'], ['[', '^', lo, '-', hi, x, ']'];
    assert SetEnd(pat, 4) == Some(6) && SetEnd(pat, 3) == Some(6) && SetEnd(pat, 2) == Some(6);
    assert SetEnd(pat', 5) == Some(7) && SetEnd(pat', 4) == Some(7) && SetEnd(pat', 3) == Some(7);
    assert !InSet(pat, c, 5, 5) && (InSet(pat, c, 4, 5) <==> c == x);
    assert InSet(pat, c, 1, 5) <==> lo <= c <= hi || c == x;
    assert !InSet(pat', c, 6, 6) && (InSet(pat', c, 5, 6) <==> c == x);
    assert InSet(pat', c, 2, 6) <==> lo <= c <= hi || c == x;
    inside := Accepts(c, pat);
    outside := Accepts(c, pat');
  }

  // A closing bracket that comes first, and a class, in a set.
  method SetItem(c: char, x: char) returns (bracket: bool, digit: bool)
    requires x !in "%]-" && x != '\0'
    ensures bracket <==> c == ']' || c == x
    ensures digit <==> '0' <= c <= '9' || c == x
  {
    var pat, pat' := ['[', ']', x, ']'], ['[', '%', 'd', x, ']'];
    assert SetEnd(pat, 2) == Some(4) && SetEnd(pat', 3) == Some(5);
    assert !InSet(pat, c, 3, 3) && (InSet(pat, c, 2, 3) <==> c == x);
    assert !InSet(pat', c, 4, 4) && (InSet(pat', c, 3, 4) <==> c == x);
    SmallLetter(c, 'd');
    bracket := Accepts(c, pat);
    digit := Accepts(c, pat');
  }

  // The dot accepts every character, and an escaped one that is no letter and no digit just itself.
  method PlainItem(c: char, x: char) returns (dot: bool, escaped: bool)
    requires !('a' <= x <= 'z' || 'A' <= x <= 'Z' || '0' <= x <= '9') && x != '\0'
    ensures dot
    ensures escaped <==> c == x
  {
    dot := Accepts(c, ".");
    escaped := Accepts(c, ['%', x]);
  }

  method Accepts(c: char, pat: string) returns (b: bool)
    requires '\0' !in pat && pat != "" && pat[0] != '^'
    requires KindAt(pat, 0).Item? && ClassEnd(pat, 0) == Some(|pat|)
    ensures b == Single(pat, c, 0, |pat|)
  {
    var src, start := [c], 0;
    start, b := OneItem(src, pat);
    assert src[0] == c;
    if !b { assert !Single(pat, src[0], 0, |pat|); }
  }

  // ---------- repetition ----------

  // A character that stands for itself.
  predicate Ordinary(x: char) { x !in "^$*+?.([%-)" && x != '\0' }

  // All of the subject's places from i up to j hold x.
  ghost predicate AllAre(src: string, x: char, i: nat, j: nat) {
    i <= j <= |src| && forall k :: i <= k < j ==> src[k] == x
  }

  ghost predicate RepeatsAt(src: string, x: char, q: char, s: nat, c: seq<nat>) {
    var pat := [x, q];
    && Open([]) == [] && WellFormed(pat, 0, []) && Lazy(pat, 0) == [q == '-']
    && (Run(src, pat, 0, s, [], c).Some? <==> |c| == 1 && Allowed(q, c[0]) && AllAre(src, x, s, s + c[0]))
    && (|c| == 1 && Run(src, pat, 0, s, [], c).Some? ==> Run(src, pat, 0, s, [], c).value == (s + c[0], []))
  }

  lemma RepeatsRuns(src: string, x: char, q: char, s: nat, c: seq<nat>)
    requires Ordinary(x) && q in "*+-?"
    ensures RepeatsAt(src, x, q, s, c)
  {
    var pat := [x, q];
    AtEnd(src, pat, s, []);
    if c != [] { AtEnd(src, pat, s + c[0], c[1..]); }
    AtQuantified(src, pat, 0, 1, s, [], c);
    assert [q == '-'] + [] == [q == '-'];
    forall n: nat ensures AllSingle(src, pat, s, n, 0, 1) <==> AllAre(src, x, s, s + n) {
      assert forall y :: Single(pat, y, 0, 1) <==> y == x;
    }
  }

  // `x*` takes as many as there are, `x-` none, `x?` one if it can; `x+` begins where the first x is.
  method Repetitions(src: string, x: char)
    returns (star: Result, minus: Result, maybe: Result, first: nat, plus: Result)
    requires Ordinary(x)
    ensures star.Matched? && AllAre(src, x, 0, star.e) && (star.e < |src| ==> src[star.e] != x)
    ensures minus == Matched(0)
    ensures maybe == Matched(if src != "" && src[0] == x then 1 else 0)
    ensures plus.Matched? <==> x in src
    ensures plus.Matched? ==> first < plus.e && AllAre(src, x, first, plus.e) && x !in src[..first]
    ensures plus.Matched? ==> plus.e == |src| || src[plus.e] != x
  {
    var start;
    start, star := Repetition(src, x, '*');
    start, minus := Repetition(src, x, '-');
    start, maybe := Repetition(src, x, '?');
    first, plus := Repetition(src, x, '+');
  }

  // The first place where as many as are allowed can be taken, and how many are.
  method Repetition(src: string, x: char, q: char) returns (start: nat, r: Result)
    requires Ordinary(x) && q in "*+-?"
    ensures q != '+' ==> r.Matched? && start == 0
    ensures q == '+' ==> (r.Matched? <==> x in src) && (r.Matched? ==> start < r.e)
    ensures q == '+' && r.Matched? ==> start <= |src| && x !in src[..start]
    ensures r.Matched? ==> AllAre(src, x, start, r.e)
    ensures q == '-' ==> r.e == start
    ensures q == '?' ==> r.e == if src != "" && src[0] == x then 1 else 0
    ensures q == '*' || (q == '+' && r.Matched?) ==> r.e == |src| || src[r.e] != x
  {
    hide Run, Preferred, Leftmost;
    var pat := [x, q];
    ghost var c, caps;
    start, r, c, caps := StrMatch(src, pat, 1);
    RepetitionIs(src, x, q, start, r, c, caps);
  }

  lemma RepetitionIs(src: string, x: char, q: char, start: nat, r: Result, c: seq<nat>, caps: seq<Capture>)
    requires Ordinary(x) && q in "*+-?" && WellFormed([x, q], 0, [])
    requires Leftmost(src, [x, q], 0, 0, false, start, r, c, caps)
    ensures q != '+' ==> r.Matched? && start == 0
    ensures q == '+' ==> (r.Matched? <==> x in src) && (r.Matched? ==> start < r.e)
    ensures q == '+' && r.Matched? ==> start <= |src| && x !in src[..start]
    ensures r.Matched? ==> AllAre(src, x, start, r.e)
    ensures q == '-' ==> r.e == start
    ensures q == '?' ==> r.e == if src != "" && src[0] == x then 1 else 0
    ensures q == '*' || (q == '+' && r.Matched?) ==> r.e == |src| || src[r.e] != x
  {
    var pat := [x, q];
    forall s: nat, d ensures RepeatsAt(src, x, q, s, d) { RepeatsRuns(src, x, q, s, d); }
    hide Run, WellFormed;
    if q != '+' {
      assert RepeatsAt(src, x, q, 0, [0]) && !Hopeless(src, pat, 0, 0, []);
    } else {
      forall k | 0 <= k < |src| && src[k] == x ensures !Hopeless(src, pat, 0, k, []) {
        assert RepeatsAt(src, x, q, k, [1]);
      }
      if x in src {
        var k :| 0 <= k < |src| && src[k] == x;
        assert !Hopeless(src, pat, 0, k, []);
      }
    }
    if r.Matched? {
      assert RepeatsAt(src, x, q, start, c);
      if q == '-' { assert RepeatsAt(src, x, q, start, [0]); }
      if q == '+' { assert src[start] == x; }
      if r.e < |src| && src[r.e] == x {
        assert RepeatsAt(src, x, q, start, [r.e - start + 1]);
      }
    }
  }

  // ---------- captures ----------

  predicate Letter(c: char) { 'a' <= c <= 'z' || 'A' <= c <= 'Z' }

  ghost predicate LettersFrom(src: string, i: int, j: int) {
    0 <= i < j <= |src| && forall k :: i <= k < j ==> Letter(src[k])
  }

  ghost predicate WordAt(src: string, y: char, s: nat, c: seq<nat>) {
    var pat := ['(', '%', 'a', '+', ')', y];
    && Open([]) == [] && WellFormed(pat, 0, []) && Lazy(pat, 0) == [false]
    && (Run(src, pat, 0, s, [], c).Some? <==>
          |c| == 1 && s + c[0] < |src| && LettersFrom(src, s, s + c[0]) && src[s + c[0]] == y)
    && (|c| == 1 && Run(src, pat, 0, s, [], c).Some? ==>
          Run(src, pat, 0, s, [], c).value == (s + c[0] + 1, [Capture(s, c[0])]))
  }

  lemma WordRuns(src: string, y: char, s: nat, c: seq<nat>)
    requires Ordinary(y)
    ensures WordAt(src, y, s, c)
  {
    hide Run, WellFormed, Lazy, MatchClass, LastOpen;
    var pat := ['(', '%', 'a', '+', ')', y];
    var n := if c == [] then 0 else c[0];
    var rest := if c == [] then [] else c[1..];
    var open, closed := [Capture(s, -1)], [Capture(s, n)];
    assert Open([]) == [] && [] + open == open && open[0 := Capture(s, n)] == closed;
    AtEndOf(src, pat, s + n + 1, closed, rest);
    AtItem(src, pat, 5, 6, s + n, closed, rest);
    AtClosing(src, pat, 4, s + n, open, 0, rest);
    assert KindAt(pat, 1).Item? && ClassEnd(pat, 1) == Some(3);
    AtQuantified(src, pat, 1, 3, s, open, c);
    AtOpening(src, pat, 0, s, [], c);
    forall ch: char ensures Single(pat, ch, 1, 3) <==> Letter(ch) { SmallLetter(ch, 'a'); }
    forall ch: char ensures Single(pat, ch, 5, 6) <==> ch == y {}
    forall k: nat ensures AllSingle(src, pat, s, k, 1, 3) <==> (k == 0 && s <= |src|) || LettersFrom(src, s, s + k) {}
  }

  // `(%a+)y`: the first letters that come before a y; the capture is the text between the parentheses.
  method CapturedWord(src: string, y: char) returns (start: nat, r: Result, ghost caps: seq<Capture>)
    requires Ordinary(y)
    ensures r.Matched? <==> exists i :: 0 <= i < |src| - 1 && Letter(src[i]) && src[i + 1] == y
    ensures r.Matched? ==> LettersFrom(src, start, r.e - 1) && r.e <= |src| && src[r.e - 1] == y
    ensures r.Matched? ==> caps == [Capture(start, r.e - 1 - start)]
    ensures r.Matched? ==> forall i, j :: 0 <= i < start && LettersFrom(src, i, j) && j < |src| ==> src[j] != y
  {
    var pat := ['(', '%', 'a', '+', ')', y];
    ghost var c;
    start, r, c, caps := StrMatch(src, pat, 1);
    forall s: nat, d ensures WordAt(src, y, s, d) { WordRuns(src, y, s, d); }
    hide Run, Preferred;
    assert WordAt(src, y, 0, []);
    forall i: nat, j: nat | LettersFrom(src, i, j) && j < |src| && src[j] == y ensures !Hopeless(src, pat, 0, i, []) {
      assert WordAt(src, y, i, [j - i]);
    }
    if i :| 0 <= i < |src| - 1 && Letter(src[i]) && src[i + 1] == y { assert LettersFrom(src, i, i + 1); }
    if r.Matched? {
      assert WordAt(src, y, start, c);
      assert Letter(src[r.e - 2]) && src[r.e - 1] == y;
    }
  }

  ghost predicate PairAt(src: string, s: nat, c: seq<nat>) {
    var pat := "(.)%1";
    && Open([]) == [] && WellFormed(pat, 0, []) && Lazy(pat, 0) == []
    && (Run(src, pat, 0, s, [], c).Some? <==> c == [] && s + 1 < |src| && src[s] == src[s + 1])
    && (Run(src, pat, 0, s, [], c).Some? ==> Run(src, pat, 0, s, [], c).value == (s + 2, [Capture(s, 1)]))
  }

  lemma PairRuns(src: string, s: nat, c: seq<nat>)
    ensures PairAt(src, s, c)
  {
    hide Run, WellFormed, Lazy, LastOpen;
    var pat := "(.)%1";
    var open, closed := [Capture(s, -1)], [Capture(s, 1)];
    assert Open([]) == [] && [] + open == open && open[0 := Capture(s, 1)] == closed;
    AtEndOf(src, pat, s + 2, closed, c);
    AtReference(src, pat, 3, s + 1, closed, c);
    AtClosing(src, pat, 2, s + 1, open, 0, c);
    AtItem(src, pat, 1, 2, s, open, c);
    AtOpening(src, pat, 0, s, [], c);
    if s + 1 < |src| { assert src[s..s + 1] == [src[s]] && src[s + 1..s + 2] == [src[s + 1]]; }
  }

  // `(.)%1`: the first character that occurs twice in a row.
  method RepeatedCharacter(src: string) returns (start: nat, r: Result, ghost caps: seq<Capture>)
    ensures r.Matched? ==> start + 1 < |src| && src[start] == src[start + 1]
    ensures r.Matched? ==> r.e == start + 2 && caps == [Capture(start, 1)]
    ensures forall i :: 0 <= i < (if r.Matched? then start else |src| - 1) ==> src[i] != src[i + 1]
  {
    var pat := "(.)%1";
    ghost var c;
    start, r, c, caps := StrMatch(src, pat, 1);
    forall s: nat, d ensures PairAt(src, s, d) { PairRuns(src, s, d); }
    hide Run, WellFormed;
    assert PairAt(src, 0, []);
    if r.Matched? { assert PairAt(src, start, c); }
    forall i | 0 <= i < (if r.Matched? then start else |src| - 1) ensures src[i] != src[i + 1] {
      assert PairAt(src, i, []) && Hopeless(src, pat, 0, i, []);
    }
  }

  ghost predicate NestedAt(src: string, x: char, y: char, s: nat, c: seq<nat>) {
    var pat := ['(', x, '(', y, ')', '(', ')', ')'];
    && Open([]) == [] && WellFormed(pat, 0, []) && Lazy(pat, 0) == []
    && (Run(src, pat, 0, s, [], c).Some? <==> c == [] && s + 1 < |src| && src[s] == x && src[s + 1] == y)
    && (Run(src, pat, 0, s, [], c).Some? ==>
          Run(src, pat, 0, s, [], c).value == (s + 2, [Capture(s, 2), Capture(s + 1, 1), Capture(s + 2, -2)]))
  }

  lemma NestedRuns(src: string, x: char, y: char, s: nat, c: seq<nat>)
    requires Ordinary(x) && Ordinary(y)
    ensures NestedAt(src, x, y, s, c)
  {
    hide Run, WellFormed, Lazy, LastOpen, Close, Open, SetEnd;
    var pat := ['(', x, '(', y, ')', '(', ')', ')'];
    var c1, c2 := [Capture(s, -1)], [Capture(s, -1), Capture(s + 1, -1)];
    var c3, c4 := [Capture(s, -1), Capture(s + 1, 1)], [Capture(s, -1), Capture(s + 1, 1), Capture(s + 2, -2)];
    var c5 := [Capture(s, 2), Capture(s + 1, 1), Capture(s + 2, -2)];
    assert Open([]) == [] && [] + c1 == c1 && c1 + [Capture(s + 1, -1)] == c2 && c3 + [Capture(s + 2, -2)] == c4;
    assert c2[1 := Capture(s + 1, 1)] == c3 && c4[0 := Capture(s, 2)] == c5;
    AtEndOf(src, pat, s + 2, c5, c);
    AtClosing(src, pat, 7, s + 2, c4, 0, c);
    AtPlace(src, pat, 5, s + 2, c3, c);
    AtClosing(src, pat, 4, s + 2, c2, 1, c);
    AtItem(src, pat, 3, 4, s + 1, c2, c);
    AtOpening(src, pat, 2, s + 1, c1, c);
    AtItem(src, pat, 1, 2, s, c1, c);
    AtOpening(src, pat, 0, s, [], c);
  }

  // `(x(y)())`: captures are numbered by their opening parentheses; `()` captures a place.
  method NestedCaptures(src: string, x: char, y: char) returns (start: nat, r: Result, ghost caps: seq<Capture>)
    requires Ordinary(x) && Ordinary(y)
    ensures r.Matched? ==> start + 1 < |src| && src[start] == x && src[start + 1] == y && r.e == start + 2
    ensures r.Matched? ==> caps == [Capture(start, 2), Capture(start + 1, 1), Capture(start + 2, -2)]
    ensures forall i :: 0 <= i < (if r.Matched? then start else |src| - 1) ==> src[i] != x || src[i + 1] != y
  {
    var pat := ['(', x, '(', y, ')', '(', ')', ')'];
    ghost var c;
    start, r, c, caps := StrMatch(src, pat, 1);
    forall s: nat, d ensures NestedAt(src, x, y, s, d) { NestedRuns(src, x, y, s, d); }
    hide Run, WellFormed;
    assert NestedAt(src, x, y, 0, []);
    if r.Matched? { assert NestedAt(src, x, y, start, c); }
    forall i | 0 <= i < (if r.Matched? then start else |src| - 1) ensures src[i] != x || src[i + 1] != y {
      assert NestedAt(src, x, y, i, []) && Hopeless(src, pat, 0, i, []);
    }
  }

  // ---------- greedy and lazy ----------

  ghost predicate UpToAt(src: string, q: char, y: char, s: nat, c: seq<nat>) {
    var pat := ['.', q, y];
    && Open([]) == [] && WellFormed(pat, 0, []) && Lazy(pat, 0) == [q == '-']
    && (Run(src, pat, 0, s, [], c).Some? <==> |c| == 1 && s + c[0] < |src| && src[s + c[0]] == y)
    && (|c| == 1 && Run(src, pat, 0, s, [], c).Some? ==> Run(src, pat, 0, s, [], c).value == (s + c[0] + 1, []))
  }

  lemma UpToRuns(src: string, q: char, y: char, s: nat, c: seq<nat>)
    requires Ordinary(y) && (q == '*' || q == '-')
    ensures UpToAt(src, q, y, s, c)
  {
    hide Run, WellFormed, Lazy, LastOpen;
    var pat := ['.', q, y];
    var n := if c == [] then 0 else c[0];
    var rest := if c == [] then [] else c[1..];
    assert Open([]) == [];
    AtEndOf(src, pat, s + n + 1, [], rest);
    AtItem(src, pat, 2, 3, s + n, [], rest);
    AtQuantified(src, pat, 0, 1, s, [], c);
    forall ch: char ensures Single(pat, ch, 0, 1) && (Single(pat, ch, 2, 3) <==> ch == y) {}
  }

  // `.*y` reaches to the last y and `.-y` to the first.
  method UpTo(src: string, y: char) returns (far: Result, near: Result)
    requires Ordinary(y)
    ensures far.Matched? <==> y in src
    ensures near.Matched? <==> y in src
    ensures far.Matched? ==> 0 < far.e <= |src| && src[far.e - 1] == y && y !in src[far.e..]
    ensures near.Matched? ==> 0 < near.e <= |src| && src[near.e - 1] == y && y !in src[..near.e - 1]
  {
    var start; ghost var c, caps;
    start, far, c, caps := StrMatch(src, ['.', '*', y], 1);
    UpToIs(src, '*', y, start, far, c, caps);
    start, near, c, caps := StrMatch(src, ['.', '-', y], 1);
    UpToIs(src, '-', y, start, near, c, caps);
  }

  lemma UpToIs(src: string, q: char, y: char, start: nat, r: Result, c: seq<nat>, caps: seq<Capture>)
    requires Ordinary(y) && (q == '*' || q == '-')
    requires WellFormed(['.', q, y], 0, []) ==> Leftmost(src, ['.', q, y], 0, 0, false, start, r, c, caps)
    ensures r.Matched? <==> y in src
    ensures r.Matched? ==> 0 < r.e <= |src| && src[r.e - 1] == y
    ensures r.Matched? ==> if q == '*' then y !in src[r.e..] else y !in src[..r.e - 1]
  {
    var pat := ['.', q, y];
    forall s: nat, d ensures UpToAt(src, q, y, s, d) { UpToRuns(src, q, y, s, d); }
    hide Run, WellFormed;
    assert UpToAt(src, q, y, 0, []);
    if y in src {
      var k :| 0 <= k < |src| && src[k] == y;
      assert UpToAt(src, q, y, 0, [k]) && !Hopeless(src, pat, 0, 0, []);
      assert start == 0;
    }
    if r.Matched? {
      assert UpToAt(src, q, y, start, c);
      forall k | 0 <= k < |src| && src[k] == y ensures if q == '*' then k < r.e else r.e - 1 <= k {
        assert UpToAt(src, q, y, 0, [k]);
      }
    }
  }

  // ---------- anchors ----------

  // `^x` matches at the beginning only, `x$` at the end only.
  method Anchors(src: string, x: char) returns (front: Result, start: nat, back: Result)
    requires Ordinary(x)
    ensures front == if src != "" && src[0] == x then Matched(1) else NoMatch
    ensures back == if src != "" && src[|src| - 1] == x then Matched(|src|) else NoMatch
    ensures back.Matched? ==> start == |src| - 1
  {
    var first; ghost var c, caps;
    first, front, c, caps := StrMatch(src, ['^', x], 1);
    FrontIs(src, x, first, front, c, caps);
    start, back, c, caps := StrMatch(src, [x, '$'], 1);
    BackIs(src, x, start, back, c, caps);
  }

  ghost predicate FrontAt(src: string, x: char, s: nat, c: seq<nat>) {
    var pat := ['^', x];
    && Open([]) == [] && WellFormed(pat, 1, [])
    && var e: nat := s + 1;
       Run(src, pat, 1, s, [], c) == if c == [] && s < |src| && src[s] == x then Some((e, [])) else None
  }

  lemma FrontIs(src: string, x: char, start: nat, r: Result, c: seq<nat>, caps: seq<Capture>)
    requires Ordinary(x)
    requires WellFormed(['^', x], 1, []) ==> Leftmost(src, ['^', x], 0, 1, true, start, r, c, caps)
    ensures r == if src != "" && src[0] == x then Matched(1) else NoMatch
  {
    var pat := ['^', x];
    forall s: nat, d ensures FrontAt(src, x, s, d) {
      AtEndOf(src, pat, s + 1, [], d);
      AtItem(src, pat, 1, 2, s, [], d);
    }
    hide Run, WellFormed;
    assert FrontAt(src, x, 0, []);
    if r.Matched? { assert FrontAt(src, x, 0, c); } else { assert Hopeless(src, pat, 1, 0, []); }
  }

  ghost predicate BackAt(src: string, x: char, s: nat, c: seq<nat>) {
    var pat := [x, '$'];
    && Open([]) == [] && WellFormed(pat, 0, [])
    && var e: nat := s + 1;
       Run(src, pat, 0, s, [], c) == if c == [] && s + 1 == |src| && src[s] == x then Some((e, [])) else None
  }

  lemma BackIs(src: string, x: char, start: nat, r: Result, c: seq<nat>, caps: seq<Capture>)
    requires Ordinary(x)
    requires WellFormed([x, '$'], 0, []) ==> Leftmost(src, [x, '$'], 0, 0, false, start, r, c, caps)
    ensures r == if src != "" && src[|src| - 1] == x then Matched(|src|) else NoMatch
    ensures r.Matched? ==> start == |src| - 1
  {
    var pat := [x, '$'];
    forall s: nat, d ensures BackAt(src, x, s, d) {
      assert WellFormed(pat, 1, []) && KindAt(pat, 1).EndOfSubject?;
      AtItem(src, pat, 0, 1, s, [], d);
    }
    hide Run, WellFormed;
    assert BackAt(src, x, 0, []);
    if src != "" && src[|src| - 1] == x {
      assert BackAt(src, x, |src| - 1, []) && !Hopeless(src, pat, 0, |src| - 1, []);
    }
    if r.Matched? { assert BackAt(src, x, start, c); }
  }

  // ---------- balanced texts and frontiers ----------

  // From i to e there are as many y as x, and more x at every place between.
  ghost predicate BalancedFrom(src: string, x: char, y: char, i: nat, e: nat) {
    && i < e <= |src| && src[i] == x && Count(src[i..e], x) == Count(src[i..e], y)
    && forall t :: i < t < e ==> Count(src[i..t], x) > Count(src[i..t], y)
  }

  // `%bxy`: the first x from which on the text is balanced.
  method BalancedText(src: string, x: char, y: char) returns (start: nat, r: Result)
    requires x != y && x != '\0' && y != '\0'
    ensures r.Matched? ==> BalancedFrom(src, x, y, start, r.e)
    ensures forall i: nat, e :: i < (if r.Matched? then start else |src|) ==> !BalancedFrom(src, x, y, i, e)
  {
    var pat := ['%', 'b', x, y];
    ghost var c, caps;
    start, r, c, caps := StrMatch(src, pat, 1);
    forall s: nat, d ensures BalanceAt(src, x, y, s, d) { BalanceRuns(src, x, y, s, d); }
    hide Run, WellFormed, Balance;
    assert BalanceAt(src, x, y, 0, []);
    if r.Matched? {
      assert BalanceAt(src, x, y, start, c);
      BalanceCounts(src, start, x, y);
    }
    forall i: nat, e | i < (if r.Matched? then start else |src|) ensures !BalancedFrom(src, x, y, i, e) {
      assert BalanceAt(src, x, y, i, []) && Hopeless(src, pat, 0, i, []);
      BalanceCounts(src, i, x, y);
    }
  }

  ghost predicate BalanceAt(src: string, x: char, y: char, s: nat, c: seq<nat>) {
    var pat := ['%', 'b', x, y];
    && Open([]) == [] && WellFormed(pat, 0, [])
    && Run(src, pat, 0, s, [], c) ==
       if c == [] && Balance(src, s, x, y).Some? then Some((Balance(src, s, x, y).value, [])) else None
  }

  lemma BalanceRuns(src: string, x: char, y: char, s: nat, c: seq<nat>)
    requires x != y && x != '\0' && y != '\0'
    ensures BalanceAt(src, x, y, s, c)
  {
    hide Balance;
    var pat, e := ['%', 'b', x, y], Balance(src, s, x, y);
    AtEnd(src, pat, if e.Some? then e.value else s, c);
    assert KindAt(pat, 0).Balanced?;
  }

  // `%f[%a]`: the first place where a word begins.
  method WordBegins(src: string) returns (start: nat, r: Result)
    ensures r.Matched? ==> start < |src| && r.e == start && Letter(src[start])
    ensures r.Matched? ==> start == 0 || !Letter(src[start - 1])
    ensures forall i :: 0 <= i < (if r.Matched? then start else |src|) ==>
              !Letter(src[i]) || (i > 0 && Letter(src[i - 1]))
  {
    hide Run, WellFormed, ParenAt, Occurs, FirstOccurrence, Letter;
    var pat := "%f[%a]";
    ghost var c, caps;
    start, r, c, caps := StrMatch(src, pat, 1);
    forall s: nat, d ensures BorderAt(src, s, d) { BorderRuns(src, s, d); }
    assert BorderAt(src, 0, []);
    if r.Matched? { assert BorderAt(src, start, c); }
    forall i | 0 <= i < (if r.Matched? then start else |src|) ensures !Letter(src[i]) || (i > 0 && Letter(src[i - 1])) {
      assert BorderAt(src, i, []) && Hopeless(src, pat, 0, i, []);
    }
  }

  ghost predicate BorderAt(src: string, s: nat, c: seq<nat>) {
    var pat := "%f[%a]";
    && Open([]) == [] && WellFormed(pat, 0, [])
    && Run(src, pat, 0, s, [], c) ==
       if c == [] && s < |src| && Letter(src[s]) && !(0 < s && Letter(src[s - 1])) then Some((s, [])) else None
  }

  lemma BorderRuns(src: string, s: nat, c: seq<nat>)
    ensures BorderAt(src, s, c)
  {
    var pat := "%f[%a]";
    AtEnd(src, pat, s, c);
    assert SetEnd(pat, 3) == Some(6) && ClassEnd(pat, 2) == Some(6);
    forall ch: char ensures BracketClass(pat, ch, 2, 5) <==> Letter(ch) {
      SmallLetter(ch, 'a');
      assert !InSet(pat, ch, 5, 5) && (InSet(pat, ch, 3, 5) <==> MatchClass(ch, 'a'));
    }
  }
}
