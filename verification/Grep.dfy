/**
 * The grep program: a recursive matcher for ^ . * $ against a declarative meaning of
 * patterns, and the line loop over a fixed buffer against the lines of the whole input.
 */
module Grep {
  /** The characters of a C string, without the terminating NUL. */
  type CString = s: string | '\0' !in s

  /** One(c) matches a single character, Many(c) any number of them; '.' accepts every character. */
  datatype Atom = One(c: char) | Many(c: char)

  datatype Pattern = Pattern(atoms: seq<Atom>, atEnd: bool)

  predicate Accepts(c: char, x: char) {
    c == '.' || c == x
  }

  /** The pattern that a string without its leading ^ denotes. */
  function Parse(re: string): (p: Pattern) {
    if re == "" then Pattern([], false)
    else if |re| >= 2 && re[1] == '*' then
      var p := Parse(re[2..]);
      p.(atoms := [Many(re[0])] + p.atoms)
    else if re == "$" then Pattern([], true)
    else
      var p := Parse(re[1..]);
      p.(atoms := [One(re[0])] + p.atoms)
  }

  /** The strings an atom stands for. */
  predicate InLanguage(a: Atom, s: string) {
    match a
    case One(c) => |s| == 1 && Accepts(c, s[0])
    case Many(c) => forall i | 0 <= i < |s| :: Accepts(c, s[i])
  }

  /** The cut points divide a prefix of the text into one piece for each atom. */
  ghost predicate Divides(p: Pattern, text: string, cuts: seq<nat>) {
    && |cuts| == |p.atoms| + 1 && cuts[0] == 0 && cuts[|p.atoms|] <= |text|
    && (p.atEnd ==> cuts[|p.atoms|] == |text|)
    && (forall i, j | 0 <= i <= j < |cuts| :: cuts[i] <= cuts[j])
    && forall i | 0 <= i < |p.atoms| :: InLanguage(p.atoms[i], text[cuts[i]..cuts[i + 1]])
  }

  ghost predicate MatchesPrefix(p: Pattern, text: string) {
    exists cuts: seq<nat> :: Divides(p, text, cuts)
  }

  /** An anchored pattern matches at the start, any other anywhere. */
  ghost predicate Matches(re: string, text: string) {
    if |re| > 0 && re[0] == '^' then MatchesPrefix(Parse(re[1..]), text)
    else exists i :: 0 <= i <= |text| && MatchesPrefix(Parse(re), text[i..])
  }

  lemma MatchesNothing(p: Pattern, text: string)
    requires p.atoms == []
    ensures MatchesPrefix(p, text) <==> (p.atEnd ==> text == "")
  {
    if p.atEnd ==> text == "" {
      assert Divides(p, text, [0]);
    }
  }

  lemma SliceOfTail(text: string, k: nat, a: nat, b: nat)
    requires a <= b && k + b <= |text|
    ensures text[k..][a..b] == text[a + k..b + k]
  {
  }

  lemma DividesPiece(p: Pattern, text: string, k: nat, cuts: seq<nat>, i: nat)
    requires k <= |text| && Divides(p, text[k..], cuts) && i < |p.atoms|
    ensures cuts[i] <= cuts[i + 1] && cuts[i + 1] + k <= |text|
    ensures InLanguage(p.atoms[i], text[cuts[i] + k..cuts[i + 1] + k])
  {
    hide InLanguage;
    assert cuts[i + 1] <= cuts[|p.atoms|];
    SliceOfTail(text, k, cuts[i], cuts[i + 1]);
  }

  /** Put a piece of k characters for a new first atom in front of a division. */
  lemma DividesCons(a: Atom, p: Pattern, text: string, k: nat, cuts: seq<nat>)
    requires k <= |text| && InLanguage(a, text[..k]) && Divides(p, text[k..], cuts)
    ensures Divides(p.(atoms := [a] + p.atoms), text, [0] + seq(|cuts|, i requires 0 <= i < |cuts| => cuts[i] + k))
  {
    hide InLanguage;
    var q := p.(atoms := [a] + p.atoms);
    var all: seq<nat> := [0] + seq(|cuts|, i requires 0 <= i < |cuts| => cuts[i] + k);
    forall i | 0 <= i < |q.atoms| ensures InLanguage(q.atoms[i], text[all[i]..all[i + 1]]) {
      if i == 0 {
        assert all[1] == k;
      } else {
        DividesPiece(p, text, k, cuts, i - 1);
      }
    }
  }

  /** Take the first atom's piece off a division. */
  lemma DividesTail(a: Atom, p: Pattern, text: string, cuts: seq<nat>)
    requires Divides(p.(atoms := [a] + p.atoms), text, cuts)
    ensures cuts[1] <= |text| && InLanguage(a, text[..cuts[1]]) && MatchesPrefix(p, text[cuts[1]..])
  {
    hide InLanguage;
    var q, k := p.(atoms := [a] + p.atoms), cuts[1];
    assert q.atoms[0] == a && text[cuts[0]..cuts[1]] == text[..k];
    assert cuts[1] <= cuts[|q.atoms|];
    var rest: seq<nat> := seq(|cuts| - 1, i requires 0 <= i < |cuts| - 1 =>
        if cuts[i + 1] >= k then cuts[i + 1] - k else 0);
    forall i | 0 <= i < |rest| ensures rest[i] == cuts[i + 1] - k {
      assert cuts[1] <= cuts[i + 1];
    }
    forall i | 0 <= i < |p.atoms| ensures InLanguage(p.atoms[i], text[k..][rest[i]..rest[i + 1]]) {
      assert q.atoms[i + 1] == p.atoms[i] && cuts[i + 1] <= cuts[i + 2] <= cuts[|q.atoms|];
      SliceOfTail(text, k, rest[i], rest[i + 1]);
    }
    assert Divides(p, text[k..], rest);
  }

  /** A pattern with a first atom matches by giving that atom some piece of the text. */
  lemma MatchesCons(a: Atom, p: Pattern, text: string)
    ensures MatchesPrefix(p.(atoms := [a] + p.atoms), text) <==>
            exists k :: 0 <= k <= |text| && InLanguage(a, text[..k]) && MatchesPrefix(p, text[k..])
  {
    var q := p.(atoms := [a] + p.atoms);
    if MatchesPrefix(q, text) {
      var cuts: seq<nat> :| Divides(q, text, cuts);
      DividesTail(a, p, text, cuts);
    }
    if k :| 0 <= k <= |text| && InLanguage(a, text[..k]) && MatchesPrefix(p, text[k..]) {
      var cuts: seq<nat> :| Divides(p, text[k..], cuts);
      DividesCons(a, p, text, k, cuts);
    }
  }

  /** matchhere */
  method MatchHere(re: CString, text: CString) returns (r: bool)
    ensures r <==> MatchesPrefix(Parse(re), text)
    decreases |re|, 1
  {
    if re == "" {
      MatchesNothing(Parse(re), text);
      return true;
    }
    if |re| >= 2 && re[1] == '*' {
      r := MatchStar(re[0], re[2..], text);
      return;
    }
    if re == "$" {
      MatchesNothing(Parse(re), text);
      return text == "";
    }
    MatchesCons(One(re[0]), Parse(re[1..]), text);
    if text != "" && (re[0] == '.' || re[0] == text[0]) {
      r := MatchHere(re[1..], text[1..]);
      assert text[..1] == [text[0]];
      assert r ==> InLanguage(One(re[0]), text[..1]);
      return;
    }
    r := false;
  }

  /** matchstar */
  method MatchStar(c: char, re: CString, text: CString) returns (r: bool)
    ensures r <==> MatchesPrefix(Parse(re).(atoms := [Many(c)] + Parse(re).atoms), text)
    decreases |re| + 2, 0
  {
    MatchesCons(Many(c), Parse(re), text);
    var i := 0;
    while true
      invariant 0 <= i <= |text|
      invariant forall j | 0 <= j < i :: Accepts(c, text[j])
      invariant forall k | 0 <= k < i :: !MatchesPrefix(Parse(re), text[k..])
      decreases |text| - i
    {
      r := MatchHere(re, text[i..]);
      if r {
        assert InLanguage(Many(c), text[..i]);
        return;
      }
      if i == |text| || !(text[i] == c || c == '.') {
        forall k | i < k <= |text| ensures !InLanguage(Many(c), text[..k]) {
          assert text[..k][i] == text[i];
        }
        return false;
      }
      i := i + 1;
    }
  }

  /** match */
  method Match(re: CString, text: CString) returns (r: bool)
    ensures r <==> Matches(re, text)
  {
    if re != "" && re[0] == '^' {
      r := MatchHere(re[1..], text);
      return;
    }
    var i := 0;
    while i <= |text|
      invariant 0 <= i <= |text| + 1
      invariant forall k | 0 <= k < i :: !MatchesPrefix(Parse(re), text[k..])
    {
      r := MatchHere(re, text[i..]);
      if r {
        return;
      }
      i := i + 1;
    }
    r := false;
  }

  // ---- the text of a pattern ----

  function AtomText(a: Atom): (s: string) { match a case One(c) => [c] case Many(c) => [c, '*'] }

  function TextOf(p: Pattern): (s: string)
    decreases |p.atoms|
  {
    if p.atoms == [] then (if p.atEnd then "$" else "")
    else AtomText(p.atoms[0]) + TextOf(p.(atoms := p.atoms[1..]))
  }

  /** A single character is not read as something else: no star follows it, and a dollar is not the last one. */
  ghost predicate Plain(p: Pattern) {
    && (forall i, j | 0 <= i < j < |p.atoms| && j == i + 1 && p.atoms[i].One? :: p.atoms[j].c != '*')
    && (p.atoms != [] && !p.atEnd ==> p.atoms[|p.atoms| - 1] != One('$'))
  }

  /** Every text is that of the pattern it denotes. */
  lemma {:induction false} TextBack(re: string)
    ensures TextOf(Parse(re)) == re && Plain(Parse(re))
    decreases |re|
  {
    if re != "" && re != "$" {
      var star := |re| >= 2 && re[1] == '*';
      var a, rest := if star then Many(re[0]) else One(re[0]), if star then re[2..] else re[1..];
      TextBack(rest);
      var p, q := Parse(re), Parse(rest);
      assert p.atoms == [a] + q.atoms && p.atoms[1..] == q.atoms && p.(atoms := q.atoms) == q;
      assert re == AtomText(a) + rest;
      if q.atoms != [] { FirstAtom(q, rest); }
      PlainMore(a, q);
    }
  }

  lemma FirstAtom(q: Pattern, s: string)
    requires TextOf(q) == s && q.atoms != []
    ensures s != "" && q.atoms[0].c == s[0]
  {
  }

  lemma PlainMore(a: Atom, q: Pattern)
    requires Plain(q) && (a.One? && q.atoms != [] ==> q.atoms[0].c != '*')
    requires q.atoms == [] && !q.atEnd ==> a != One('$')
    ensures Plain(q.(atoms := [a] + q.atoms))
  {
  }

  /** And every such pattern is denoted by its text. */
  lemma {:induction false} PatternBack(p: Pattern)
    requires Plain(p)
    ensures Parse(TextOf(p)) == p
    decreases |p.atoms|
  {
    if p.atoms != [] {
      var a, q := p.atoms[0], p.(atoms := p.atoms[1..]);
      var re, rest := TextOf(p), TextOf(q);
      assert Plain(q);
      PatternBack(q);
      assert [a] + q.atoms == p.atoms;
      if a.Many? {
        assert re[0] == a.c && re[1] == '*' && re[2..] == rest;
      } else {
        assert re[0] == a.c && re[1..] == rest;
        if q.atoms != [] { FirstAtom(q, rest); assert p.atoms[1].c != '*'; }
      }
    }
  }

  const BUFSIZE := 1024

  /** Where the first line of s ends: at a newline, at a NUL, or at the end. */
  function LineEnd(s: string): (q: nat)
    ensures q <= |s| && (q < |s| ==> s[q] == '\n' || s[q] == '\0') && Inside(s[..q])
  {
    if s == "" || s[0] == '\n' || s[0] == '\0' then 0 else
      var q := LineEnd(s[1..]);
      assert s[..q + 1] == [s[0]] + s[1..][..q];
      1 + q
  }

  /** Neither newline nor NUL. */
  predicate Inside(s: string) { '\n' !in s && '\0' !in s }

  /** strchr finds no newline in s: a NUL comes first, or the end. */
  predicate Stuck(s: string) {
    LineEnd(s) < |s| ==> s[LineEnd(s)] == '\0'
  }

  /**
   * The complete lines of s that match, with their newlines, up to the first line that holds a NUL or does not fit
   * the buffer together with its newline.
   */
  ghost function Selected(re: string, s: string): (out: string) {
    var q := LineEnd(s);
    if q == |s| || s[q] == '\0' || q + 1 > BUFSIZE - 1 then ""
    else (if Matches(re, s[..q]) then s[..q + 1] else "") + Selected(re, s[q + 1..])
  }

  lemma LineEndAt(s: string, q: nat)
    requires q <= |s| && (q < |s| ==> s[q] == '\n' || s[q] == '\0') && Inside(s[..q])
    ensures LineEnd(s) == q
  {
    var k := LineEnd(s);
    assert Inside(s[..k]);
  }

  /** One line: what is selected from s is its first line, if it matches, and the rest. */
  lemma SelectedLine(re: string, s: string, q: nat)
    requires q < |s| && s[q] == '\n' && q + 1 <= BUFSIZE - 1 && Inside(s[..q])
    ensures Selected(re, s) == (if Matches(re, s[..q]) then s[..q + 1] else "") + Selected(re, s[q + 1..])
  {
    LineEndAt(s, q);
  }

  /** No line of s fits, or none is complete. */
  lemma SelectedNothing(re: string, s: string, m: nat)
    requires m <= |s| && (m == |s| || m == BUFSIZE - 1) && Stuck(s[..m])
    ensures Selected(re, s) == ""
  {
    var k := LineEnd(s[..m]);
    assert s[..m][..k] == s[..k];
    if k < m { LineEndAt(s, k); }
  }

  /** strchr(buf + p, '\n'), where the string at p ends at m or before; q is where the search stops. */
  method FindNewline(buf: array<char>, p: nat, ghost m: nat) returns (found: bool, q: nat)
    requires p <= m < buf.Length && buf[m] == '\0'
    ensures p <= q <= m && Inside(buf[p..q])
    ensures if found then q < m && buf[q] == '\n' else buf[q] == '\0'
  {
    q := p;
    while buf[q] != '\0'
      invariant p <= q <= m && Inside(buf[p..q])
      decreases m - q
    {
      if buf[q] == '\n' {
        return true, q;
      }
      q := q + 1;
    }
    found := false;
  }

  /** memmove(buf, buf + p, n) */
  method MoveDown(buf: array<char>, p: nat, n: nat)
    requires p + n <= buf.Length
    modifies buf
    ensures buf[..n] == old(buf[p..p + n])
  {
    var i := 0;
    while i < n
      invariant 0 <= i <= n
      invariant forall j | 0 <= j < i :: buf[j] == old(buf[p + j])
      invariant forall j | p + i <= j < buf.Length :: buf[j] == old(buf[j])
    {
      buf[i] := buf[p + i];
      i := i + 1;
    }
  }

  /** Handling the line from p to q moves what is selected from it to the output. */
  lemma SelectedNext(re: string, was: string, p: nat, q: nat, rest: string, out: string)
    requires p <= q < |was| < BUFSIZE && was[q] == '\n' && Inside(was[p..q])
    ensures out + Selected(re, was[p..] + rest) ==
            (if Matches(re, was[p..q]) then out + was[p..q + 1] else out) + Selected(re, was[q + 1..] + rest)
  {
    hide Selected, LineEnd, Matches;
    var s, k := was[p..] + rest, q - p;
    assert s[..k] == was[p..q] && s[..k + 1] == was[p..q + 1] && s[k + 1..] == was[q + 1..] + rest;
    SelectedLine(re, s, k);
    var next := Selected(re, was[q + 1..] + rest);
    assert out + (was[p..q + 1] + next) == (out + was[p..q + 1]) + next && "" + next == next;
  }

  /** read into buf + m, and the NUL after it. */
  method Append(buf: array<char>, m: nat, chunk: string)
    requires m + |chunk| < buf.Length
    modifies buf
    ensures buf[..m + |chunk|] == old(buf[..m]) + chunk && buf[m + |chunk|] == '\0'
  {
    var i := 0;
    while i < |chunk|
      invariant 0 <= i <= |chunk| && buf[..m + i] == old(buf[..m]) + chunk[..i]
    {
      buf[m + i] := chunk[i];
      i := i + 1;
    }
    buf[m + |chunk|] := '\0';
  }

  lemma StuckAt(s: string, q: nat)
    requires q <= |s| && (q < |s| ==> s[q] == '\0') && Inside(s[..q])
    ensures Stuck(s)
  {
    LineEndAt(s, q);
  }

  /** The inner loop of grep: handle every complete line of the buffered string. */
  method HandleLines(re: CString, buf: array<char>, m: nat, out: string, ghost rest: string) returns (o: string, p: nat)
    requires m < buf.Length == BUFSIZE && buf[m] == '\0'
    modifies buf
    ensures p <= m && Stuck(buf[p..m]) && buf[p..m] == old(buf[p..m])
    ensures o + Selected(re, buf[p..m] + rest) == out + Selected(re, old(buf[..m]) + rest)
  {
    hide Selected, LineEnd, Matches;
    o, p := out, 0;
    ghost var was := buf[..m];
    assert was[0..] == was;
    while true
      invariant p <= m && buf[m] == '\0'
      invariant forall i | p <= i < m :: buf[i] == was[i]
      invariant o + Selected(re, was[p..] + rest) == out + Selected(re, was + rest)
      decreases m - p
    {
      assert buf[p..m] == was[p..];
      var found, q := FindNewline(buf, p, m);
      if !found {
        StuckAt(buf[p..m], q - p);
        return;
      }
      var line := buf[p..q];
      assert line == was[p..q];
      SelectedNext(re, was, p, q, rest, o);
      buf[q] := '\0';
      var matched := Match(re, line);
      if matched {
        buf[q] := '\n';
        assert buf[p..q + 1] == was[p..q + 1];
        o := o + buf[p..q + 1];
      }
      p := q + 1;
    }
  }

  /**
   * grep over an input that arrives in reads of arbitrary positive sizes: pieces(k)
   * bounds the k-th read. What is printed does not depend on the pieces.
   */
  method Run(re: CString, input: string, pieces: nat -> nat) returns (out: string)
    ensures out == Selected(re, input)
  {
    hide Selected, LineEnd, Matches;
    var buf := new char[BUFSIZE](i => '\0');
    var m, pos, k := 0, 0, 0;
    out := "";
    assert buf[..0] + input[0..] == input;
    StuckAt(buf[..0], 0);
    while true
      invariant 0 <= m < BUFSIZE && pos <= |input| && k >= 0
      invariant Stuck(buf[..m])
      invariant out + Selected(re, buf[..m] + input[pos..]) == Selected(re, input)
      decreases |input| - pos
    {
      var n := ReadSize(BUFSIZE - m - 1, |input| - pos, pieces(k));
      if n == 0 {
        assert (buf[..m] + input[pos..])[..m] == buf[..m];
        SelectedNothing(re, buf[..m] + input[pos..], m);
        return;
      }
      var chunk := input[pos..pos + n];
      assert input[pos..] == chunk + input[pos + n..];
      out, m := Round(re, buf, m, chunk, out, input[pos + n..]);
      pos, k := pos + n, k + 1;
    }
  }

  /** One round of grep's outer loop, after a read has delivered chunk. */
  method Round(re: CString, buf: array<char>, m: nat, chunk: string, out: string, ghost rest: string)
    returns (o: string, left: nat)
    requires m + |chunk| < buf.Length == BUFSIZE
    modifies buf
    ensures left < BUFSIZE && Stuck(buf[..left])
    ensures o + Selected(re, buf[..left] + rest) == out + Selected(re, old(buf[..m]) + (chunk + rest))
  {
    hide Selected, LineEnd, Matches;
    ghost var was := buf[..m];
    Append(buf, m, chunk);
    assert was + (chunk + rest) == (was + chunk) + rest;
    var p;
    o, p := HandleLines(re, buf, m + |chunk|, out, rest);
    MoveDown(buf, p, m + |chunk| - p);
    left := m + |chunk| - p;
  }

  /** How many bytes a read returns: nothing when asked for none or at end of input. */
  function ReadSize(asked: nat, available: nat, piece: nat): (n: nat)
    ensures n <= asked && n <= available && (n == 0 <==> asked == 0 || available == 0)
  {
    var most := if asked < available then asked else available;
    if most == 0 then 0 else if piece == 0 then 1 else if piece < most then piece else most
  }
}
