/** The linear regular expressions of the normalisers, written as a sequence
    of greedy atoms: a literal (optionally case-insensitive), a run of
    whitespace, or a run of one character class, each with a minimum count.
    Every pattern built from them in this project has the property that the
    atom after a run starts with a character outside that run's class, so the
    greedy choice is the only one a backtracking matcher could succeed with:
    the first match `re` finds is the one computed here. */
module Patterns {
  import opened Text

  datatype Option<T> = None | Some(value: T)

  datatype Class =
    | Digits          // \d
    | CyrOrDigits     // [А-Яа-я\d]
    | CyrOrSpace      // [А-Яа-я\s]
    | StreetText      // [А-Яа-я\s\-\.]

  datatype Atom =
    | Lit(text: string, ignoreCase: bool)
    | OneOf(chars: string, ignoreCase: bool)   // a one-character class `[..]`
    | Spaces(min: nat)
    | Run(cls: Class, min: nat)

  /** `wordStart` is a leading `\b`. */
  datatype Pattern = Pattern(wordStart: bool, atoms: seq<Atom>)

  predicate InClass(c: char, k: Class) {
    match k
    case Digits => IsDigit(c)
    case CyrOrDigits => IsCyrRange(c) || IsDigit(c)
    case CyrOrSpace => IsCyrRange(c) || IsSpace(c)
    case StreetText => IsCyrRange(c) || IsSpace(c) || c == '-' || c == '.'
  }

  /** Length of the maximal run of whitespace starting at `i`. */
  function SpaceRun(s: string, i: nat): (k: nat)
    requires i <= |s|
    ensures i + k <= |s|
    ensures forall j :: i <= j < i + k ==> IsSpace(s[j])
    ensures i + k < |s| ==> !IsSpace(s[i + k])
    decreases |s| - i
  {
    if i < |s| && IsSpace(s[i]) then 1 + SpaceRun(s, i + 1) else 0
  }

  /** Length of the maximal run of class `cls` starting at `i`. */
  function ClassRun(s: string, i: nat, cls: Class): (k: nat)
    requires i <= |s|
    ensures i + k <= |s|
    ensures forall j :: i <= j < i + k ==> InClass(s[j], cls)
    ensures i + k < |s| ==> !InClass(s[i + k], cls)
    decreases |s| - i
  {
    if i < |s| && InClass(s[i], cls) then 1 + ClassRun(s, i + 1, cls) else 0
  }

  /** The literal `t` occurs at `i` (modulo case when `ci`). */
  predicate LitAt(s: string, i: nat, t: string, ci: bool) {
    i + |t| <= |s| &&
    forall j :: 0 <= j < |t| ==>
      if ci then SameIgnoringCase(s[i + j], t[j]) else s[i + j] == t[j]
  }

  /** One character of a literal found at `i`. */
  lemma LitAtChar(s: string, i: nat, t: string, ci: bool, j: nat)
    requires LitAt(s, i, t, ci) && j < |t|
    ensures i + j < |s|
    ensures ci ==> LowerChar(s[i + j]) == LowerChar(t[j])
    ensures !ci ==> s[i + j] == t[j]
  {
  }

  /** A case-sensitive literal found at `i` is contained in the text. */
  lemma LitAtContains(s: string, i: nat, t: string)
    requires LitAt(s, i, t, false)
    ensures Contains(s, t)
  {
    assert s[i..i + |t|] == t;
    ContainsAt(s, t, i);
  }

  /** `c` is one of `chars` (modulo case when `ci`). */
  predicate CharIn(c: char, chars: string, ci: bool) {
    exists j :: 0 <= j < |chars| && (if ci then SameIgnoringCase(c, chars[j]) else c == chars[j])
  }

  /** `\b` at `i`: a word character on exactly one side. */
  predicate Boundary(s: string, i: nat)
    requires i <= |s|
  {
    (i > 0 && IsWordChar(s[i - 1])) != (i < |s| && IsWordChar(s[i]))
  }

  /** The least number of characters a match of `atoms` spans. */
  function MinLen(atoms: seq<Atom>): nat {
    if atoms == [] then 0
    else
      (match atoms[0]
       case Lit(t, _) => |t|
       case OneOf(_, _) => 1
       case Spaces(m) => m
       case Run(_, m) => m)
      + MinLen(atoms[1..])
  }

  /** End of the greedy match of `atoms` starting at `i`, if there is one. */
  function MatchEnd(s: string, i: nat, atoms: seq<Atom>): (e: Option<nat>)
    requires i <= |s|
    ensures e.Some? ==> i + MinLen(atoms) <= e.value <= |s|
    decreases |atoms|
  {
    if atoms == [] then Some(i)
    else match atoms[0]
      case Lit(t, ci) =>
        if LitAt(s, i, t, ci) then MatchEnd(s, i + |t|, atoms[1..]) else None
      case OneOf(cs, ci) =>
        if i < |s| && CharIn(s[i], cs, ci) then MatchEnd(s, i + 1, atoms[1..]) else None
      case Spaces(m) =>
        var k := SpaceRun(s, i);
        if k >= m then MatchEnd(s, i + k, atoms[1..]) else None
      case Run(cls, m) =>
        var k := ClassRun(s, i, cls);
        if k >= m then MatchEnd(s, i + k, atoms[1..]) else None
  }

  /** End of the match of `p` at `i`, the `\b` included. */
  function MatchAt(s: string, i: nat, p: Pattern): (e: Option<nat>)
    requires i <= |s|
    ensures e.Some? ==> i + MinLen(p.atoms) <= e.value <= |s|
    ensures e.Some? && p.wordStart ==> Boundary(s, i)
  {
    if p.wordStart && !Boundary(s, i) then None else MatchEnd(s, i, p.atoms)
  }

  /** `re.sub('^' + p, '', s)`: only a match at the very start is removed
      (`^` matches nowhere else, so there is at most one). */
  function CutLeading(s: string, p: Pattern): (r: string)
    ensures MatchAt(s, 0, p).None? ==> r == s
    ensures MatchAt(s, 0, p).Some? ==> r == s[MatchAt(s, 0, p).value..]
  {
    match MatchAt(s, 0, p)
    case None => s
    case Some(e) => s[e..]
  }

  /** `re.sub(p, repl, s[i..])` where the `\b` looks at the whole of `s`:
      every leftmost non-overlapping match is replaced by `repl`. */
  function SubFrom(s: string, i: nat, p: Pattern, repl: string): string
    requires i <= |s| && MinLen(p.atoms) > 0
    decreases |s| - i
  {
    if i == |s| then []
    else match MatchAt(s, i, p)
      case Some(e) => repl + SubFrom(s, e, p, repl)
      case None => [s[i]] + SubFrom(s, i + 1, p, repl)
  }

  function Sub(s: string, p: Pattern, repl: string): string
    requires MinLen(p.atoms) > 0
  {
    SubFrom(s, 0, p, repl)
  }

  /** A match at `i` puts the replacement at the front of the output. */
  lemma SubFromMatch(s: string, i: nat, p: Pattern, repl: string)
    requires i < |s| && MinLen(p.atoms) > 0 && MatchAt(s, i, p).Some?
    ensures SubFrom(s, i, p, repl) == repl + SubFrom(s, MatchAt(s, i, p).value, p, repl)
  {
  }

  /** Where no match starts, nothing is rewritten. */
  lemma {:induction false} SubNoMatch(s: string, i: nat, p: Pattern, repl: string)
    requires i <= |s| && MinLen(p.atoms) > 0
    requires forall j :: i <= j < |s| ==> MatchAt(s, j, p).None?
    ensures SubFrom(s, i, p, repl) == s[i..]
    decreases |s| - i
  {
    if i < |s| {
      SubNoMatch(s, i + 1, p, repl);
      assert s[i..] == [s[i]] + s[i + 1..];
    }
  }

  /** Where no match starts before `j`, the text up to `j` is copied. */
  lemma {:induction false} SubCopies(s: string, i: nat, j: nat, p: Pattern, repl: string)
    requires i <= j <= |s| && MinLen(p.atoms) > 0
    requires forall k :: i <= k < j ==> MatchAt(s, k, p).None?
    ensures SubFrom(s, i, p, repl) == s[i..j] + SubFrom(s, j, p, repl)
    decreases j - i
  {
    if i < j {
      SubCopies(s, i + 1, j, p, repl);
      assert s[i..j] == [s[i]] + s[i + 1..j];
    }
  }

  /** A character that is neither in the input nor in the replacement does
      not appear in the output. */
  lemma {:induction false} SubChars(s: string, i: nat, p: Pattern, repl: string, c: char)
    requires i <= |s| && MinLen(p.atoms) > 0
    requires c !in s[i..] && c !in repl
    ensures c !in SubFrom(s, i, p, repl)
    decreases |s| - i
  {
    if i < |s| {
      match MatchAt(s, i, p)
      case Some(e) =>
        assert s[e..] == s[i..][e - i..];
        SubChars(s, e, p, repl, c);
      case None =>
        assert s[i + 1..] == s[i..][1..];
        SubChars(s, i + 1, p, repl, c);
    }
  }

  // ---------------------------------------------------------------------
  // Patterns that end in `.*$`

  /** End of `.*` from `k`: `.` does not match a line break. */
  function DotEnd(s: string, k: nat): (e: nat)
    requires k <= |s|
    ensures k <= e <= |s|
    ensures forall j :: k <= j < e ==> s[j] != '\n'
    ensures e < |s| ==> s[e] == '\n'
    decreases |s| - k
  {
    if k < |s| && s[k] != '\n' then DotEnd(s, k + 1) else k
  }

  /** `$` without MULTILINE: the end, or just before a final line break. */
  predicate DollarAt(s: string, e: nat) {
    e == |s| || (e + 1 == |s| && s[e] == '\n')
  }

  /** `p.*$` matches at `i` and ends at the returned position. */
  function TailMatchAt(s: string, i: nat, p: Pattern): (e: Option<nat>)
    requires i <= |s|
    ensures e.Some? ==> i + MinLen(p.atoms) <= e.value <= |s| && DollarAt(s, e.value)
  {
    match MatchAt(s, i, p)
    case None => None
    case Some(m) => if DollarAt(s, DotEnd(s, m)) then Some(DotEnd(s, m)) else None
  }

  /** The leftmost position from `i` at which `p.*$` matches. */
  function FirstTail(s: string, i: nat, p: Pattern): (r: Option<nat>)
    requires i <= |s|
    ensures r.Some? ==> i <= r.value <= |s| && TailMatchAt(s, r.value, p).Some?
    ensures r.Some? ==> forall j :: i <= j < r.value ==> TailMatchAt(s, j, p).None?
    ensures r.None? ==> forall j :: i <= j <= |s| ==> TailMatchAt(s, j, p).None?
    decreases |s| - i
  {
    if TailMatchAt(s, i, p).Some? then Some(i)
    else if i == |s| then None
    else FirstTail(s, i + 1, p)
  }

  /** A pattern that starts with `\s+` finds nothing in text without
      whitespace. */
  lemma NoSpaceNoTail(s: string, p: Pattern)
    requires |p.atoms| > 0 && p.atoms[0] == Spaces(1)
    requires forall j :: 0 <= j < |s| ==> !IsSpace(s[j])
    ensures FirstTail(s, 0, p).None?
  {
    forall j | 0 <= j <= |s| ensures TailMatchAt(s, j, p).None? {
      assert SpaceRun(s, j) == 0;
    }
  }

  /** `re.sub(p + '.*$', '', s)`: the text from the leftmost match up to the
      end (or up to a final line break) is removed. */
  function CutTail(s: string, p: Pattern): (r: string)
    requires MinLen(p.atoms) > 0
    ensures FirstTail(s, 0, p).None? ==> r == s
    ensures FirstTail(s, 0, p).Some? ==>
      var i := FirstTail(s, 0, p).value;
      r == s[..i] + s[TailMatchAt(s, i, p).value..]
  {
    match FirstTail(s, 0, p)
    case None => s
    case Some(i) => s[..i] + s[TailMatchAt(s, i, p).value..]
  }

  /** The leftmost position in `[i, n)` where `p` holds: the scan
      `re.search` makes over start positions. */
  function FirstWhere(p: nat -> bool, i: nat, n: nat): (r: Option<nat>)
    requires i <= n
    ensures r.Some? ==> i <= r.value < n && p(r.value)
    decreases n - i
  {
    if i == n then None
    else if p(i) then Some(i)
    else FirstWhere(p, i + 1, n)
  }

  /** Nothing before the position found satisfies `p`. */
  lemma {:induction false} FirstWhereMinimal(p: nat -> bool, i: nat, n: nat, j: nat)
    requires i <= j < n
    requires FirstWhere(p, i, n).None? || j < FirstWhere(p, i, n).value
    ensures !p(j)
    decreases n - i
  {
    if i < j { FirstWhereMinimal(p, i + 1, n, j); }
  }

  /** The first position that satisfies `p` is the one found. */
  lemma {:induction false} FirstWhereIs(p: nat -> bool, i: nat, n: nat, k: nat)
    requires i <= k < n && p(k)
    requires forall j :: i <= j < k ==> !p(j)
    ensures FirstWhere(p, i, n) == Some(k)
    decreases k - i
  {
    if i < k { FirstWhereIs(p, i + 1, n, k); }
  }

  /** Where `p` holds nowhere, nothing is found. */
  lemma {:induction false} FirstWhereNone(p: nat -> bool, i: nat, n: nat)
    requires i <= n
    requires forall j :: i <= j < n ==> !p(j)
    ensures FirstWhere(p, i, n).None?
    decreases n - i
  {
    if i < n { FirstWhereNone(p, i + 1, n); }
  }

  /** A cut keeps a prefix of the input, plus a final line break if the
      input ends with one. */
  lemma CutTailPrefix(s: string, p: Pattern)
    requires MinLen(p.atoms) > 0
    ensures exists n :: 0 <= n <= |s| && (CutTail(s, p) == s[..n] || CutTail(s, p) == s[..n] + "\n")
  {
    match FirstTail(s, 0, p)
    case None => assert CutTail(s, p) == s[..|s|];
    case Some(i) =>
      var e := TailMatchAt(s, i, p).value;
      if e == |s| {
        assert CutTail(s, p) == s[..i];
      } else {
        assert s[e..] == "\n";
      }
  }

  lemma FirstTailIs(s: string, i: nat, k: nat, p: Pattern)
    requires i <= k <= |s| && TailMatchAt(s, k, p).Some?
    requires forall j :: i <= j < k ==> TailMatchAt(s, j, p).None?
    ensures FirstTail(s, i, p) == Some(k)
  {
    if FirstTail(s, i, p) != Some(k) {
      assert false;
    }
  }

  // ---------------------------------------------------------------------
  // `\s+\d+.*$`, the cut shared by the street-name extractors

  /** `\s+\d+` : the `.*$` after it is added by `CutTail`. */
  const SpaceThenDigits := Pattern(false, [Spaces(1), Run(Digits, 1)])

  /** No whitespace character directly before a digit. */
  predicate NoSpaceBeforeDigit(s: string) {
    forall j :: 0 <= j < |s| - 1 ==> !(IsSpace(s[j]) && IsDigit(s[j + 1]))
  }

  /** On one line, `.*$` always reaches the end. */
  lemma DotEndOneLine(s: string, k: nat)
    requires k <= |s| && '\n' !in s
    ensures DotEnd(s, k) == |s|
  {
  }

  /** A whitespace character followed by a digit starts a match. */
  lemma SpaceDigitMatches(s: string, j: nat)
    requires j + 1 < |s| && '\n' !in s && IsSpace(s[j]) && IsDigit(s[j + 1])
    ensures TailMatchAt(s, j, SpaceThenDigits).Some?
  {
    var atoms := SpaceThenDigits.atoms;
    assert SpaceRun(s, j + 1) == 0;
    assert SpaceRun(s, j) == 1;
    var k := ClassRun(s, j + 1, Digits);
    assert k >= 1;
    assert atoms[1..][1..] == [];
    assert MatchEnd(s, j + 1 + k, atoms[1..][1..]) == Some(j + 1 + k);
    assert MatchEnd(s, j + 1, atoms[1..]) == Some(j + 1 + k);
    assert MatchAt(s, j, SpaceThenDigits) == Some(j + 1 + k);
    DotEndOneLine(s, j + 1 + k);
  }

  /** On one line, the cut leaves no whitespace directly before a digit. */
  lemma CutAtSpaceDigits(s: string)
    requires '\n' !in s
    ensures NoSpaceBeforeDigit(CutTail(s, SpaceThenDigits))
  {
    var r := CutTail(s, SpaceThenDigits);
    match FirstTail(s, 0, SpaceThenDigits)
    case None =>
      forall j | 0 <= j < |s| - 1 ensures !(IsSpace(s[j]) && IsDigit(s[j + 1])) {
        if IsSpace(s[j]) && IsDigit(s[j + 1]) { SpaceDigitMatches(s, j); }
      }
    case Some(i) =>
      var e := TailMatchAt(s, i, SpaceThenDigits).value;
      DotEndOneLine(s, MatchAt(s, i, SpaceThenDigits).value);
      assert r == s[..i];
      forall j | 0 <= j < |r| - 1 ensures !(IsSpace(r[j]) && IsDigit(r[j + 1])) {
        if IsSpace(r[j]) && IsDigit(r[j + 1]) { SpaceDigitMatches(s, j); }
      }
  }
  /** On one line, a cut keeps a prefix of its input. */
  lemma OneLineCut(s: string, p: Pattern) returns (n: nat)
    requires MinLen(p.atoms) > 0 && '\n' !in s
    ensures n <= |s| && CutTail(s, p) == s[..n] && '\n' !in CutTail(s, p)
  {
    match FirstTail(s, 0, p)
    case None =>
      n := |s|;
    case Some(i) =>
      var e := TailMatchAt(s, i, p).value;
      assert DollarAt(s, e);
      assert e == |s|;
      n := i;
  }

  lemma NoSpaceBeforeDigitInfix(s: string, a: nat, b: nat)
    requires a <= b <= |s| && NoSpaceBeforeDigit(s)
    ensures NoSpaceBeforeDigit(s[a..b])
  {
    var r := s[a..b];
    forall j | 0 <= j < |r| - 1 ensures !(IsSpace(r[j]) && IsDigit(r[j + 1])) {
      assert r[j] == s[a + j] && r[j + 1] == s[a + j + 1];
    }
  }


  /** Where `\s+\d+.*$` cuts a one-line text: at the start of the first
      whitespace run that a digit follows, or at the end when there is none. */
  function SpaceDigitCut(s: string): (n: nat)
    requires '\n' !in s
    ensures n <= |s| && CutTail(s, SpaceThenDigits) == s[..n]
    ensures NoSpaceBeforeDigit(s[..n])
    ensures n < |s| ==> IsSpace(s[n]) && n + SpaceRun(s, n) < |s| && IsDigit(s[n + SpaceRun(s, n)])
    ensures 0 < n < |s| ==> !IsSpace(s[n - 1])
    ensures n == |s| <==> NoSpaceBeforeDigit(s)
  {
    CutAtSpaceDigits(s);
    match FirstTail(s, 0, SpaceThenDigits)
    case None => assert s[..|s|] == s; |s|
    case Some(i) => SpaceDigitCutAt(s, i); i
  }

  /** The leftmost match of `\s+\d+` starts a whitespace run that a digit
      ends, and no whitespace stands before it. */
  lemma SpaceDigitCutAt(s: string, i: nat)
    requires '\n' !in s && FirstTail(s, 0, SpaceThenDigits) == Some(i)
    ensures i < |s| && CutTail(s, SpaceThenDigits) == s[..i]
    ensures IsSpace(s[i]) && i + SpaceRun(s, i) < |s| && IsDigit(s[i + SpaceRun(s, i)])
    ensures i > 0 ==> !IsSpace(s[i - 1])
    ensures !NoSpaceBeforeDigit(s)
  {
    var atoms := SpaceThenDigits.atoms;
    var k := SpaceRun(s, i);
    DotEndOneLine(s, MatchAt(s, i, SpaceThenDigits).value);
    assert MatchEnd(s, i, atoms).Some?;
    assert k >= 1;
    assert MatchEnd(s, i + k, atoms[1..]).Some?;
    assert ClassRun(s, i + k, Digits) >= 1;
    assert IsSpace(s[i + k - 1]);
    if i > 0 && IsSpace(s[i - 1]) {
      SpaceExtendsMatch(s, i);
      assert false;
    }
  }

  /** A whitespace character before a match of `\s+\d+.*$` starts one too. */
  lemma SpaceExtendsMatch(s: string, i: nat)
    requires '\n' !in s && 0 < i <= |s| && IsSpace(s[i - 1])
    requires TailMatchAt(s, i, SpaceThenDigits).Some?
    ensures TailMatchAt(s, i - 1, SpaceThenDigits).Some?
  {
    var atoms := SpaceThenDigits.atoms;
    var k := SpaceRun(s, i);
    assert SpaceRun(s, i - 1) == 1 + k;
    assert MatchEnd(s, i - 1, atoms) == MatchEnd(s, i + k, atoms[1..]);
    DotEndOneLine(s, MatchAt(s, i - 1, SpaceThenDigits).value);
  }

  // ---------------------------------------------------------------------
  // A word after whitespace

  /** No whitespace character is directly followed by `w` (in any case). */
  predicate NoSpacedWord(x: string, w: string) {
    forall k :: 0 <= k < |x| && IsSpace(x[k]) ==> !LitAt(x, k + 1, w, true)
  }

  /** A literal found in a slice is found at the shifted position of the
      whole text, and conversely when it fits in the slice. */
  lemma LitAtSlice(s: string, a: nat, b: nat, i: nat, w: string, ci: bool)
    requires a <= b <= |s|
    ensures LitAt(s[a..b], i, w, ci) ==> LitAt(s, a + i, w, ci)
    ensures a + i + |w| <= b && LitAt(s, a + i, w, ci) ==> LitAt(s[a..b], i, w, ci)
  {
    if i + |w| <= b - a {
      forall m | i <= m < i + |w| ensures s[a..b][m] == s[a + m] {}
    }
  }

  /** `\s+w.*$` with `w` case-insensitive, as `CutTail` removes it. */
  function SpacedWord(w: string): (p: Pattern)
    requires |w| > 0
    ensures MinLen(p.atoms) > 0
  {
    Pattern(false, [Spaces(1), Lit(w, true)])
  }

  /** On one line, whitespace directly before `w` starts a match. */
  lemma SpacedWordMatches(s: string, k: nat, w: string)
    requires '\n' !in s && |w| > 0 && forall j :: 0 <= j < |w| ==> !IsSpace(LowerChar(w[j]))
    requires k < |s| && IsSpace(s[k]) && LitAt(s, k + 1, w, true)
    ensures TailMatchAt(s, k, SpacedWord(w)).Some?
  {
    var atoms := SpacedWord(w).atoms;
    LitAtChar(s, k + 1, w, true, 0);
    assert !IsSpace(s[k + 1]);
    assert SpaceRun(s, k + 1) == 0;
    assert SpaceRun(s, k) == 1;
    assert atoms[1..][1..] == [];
    assert MatchEnd(s, k + 1, atoms[1..]) == Some(k + 1 + |w|);
    DotEndOneLine(s, k + 1 + |w|);
  }

  /** On one line, the cut at the first whitespace before `w` leaves no
      whitespace before `w`. */
  lemma CutTailNoSpacedWord(s: string, w: string)
    requires '\n' !in s && |w| > 0 && forall j :: 0 <= j < |w| ==> !IsSpace(LowerChar(w[j]))
    ensures NoSpacedWord(CutTail(s, SpacedWord(w)), w)
  {
    var p := SpacedWord(w);
    var x := CutTail(s, p);
    var n := OneLineCut(s, p);
    forall k | 0 <= k < |x| && IsSpace(x[k]) ensures !LitAt(x, k + 1, w, true) {
      if LitAt(x, k + 1, w, true) {
        assert x == s[0..n];
        LitAtSlice(s, 0, n, k + 1, w, true);
        SpacedWordMatches(s, k, w);
      }
    }
  }

  /** Collapsing whitespace does not create a leading word the input lacked. */
  lemma {:induction false} CollapseLitPrefix(s: string, w: string)
    requires forall j :: 0 <= j < |w| ==> !IsSpace(LowerChar(w[j]))
    requires LitAt(CollapseWs(s), 0, w, true)
    ensures LitAt(s, 0, w, true)
    decreases |w|
  {
    if |w| > 0 && !IsSpace(s[0]) {
      var r := CollapseWs(s[1..]);
      assert CollapseWs(s) == [s[0]] + r;
      LitAtSlice(CollapseWs(s), 1, |CollapseWs(s)|, 0, w[1..], true);
      assert CollapseWs(s)[1..] == r;
      CollapseLitPrefix(s[1..], w[1..]);
      LitAtSlice(s, 1, |s|, 0, w[1..], true);
      assert s[1..|s|] == s[1..];
    } else if |w| > 0 {
      CollapseSpaceFirst(s);
      LitAtChar(CollapseWs(s), 0, w, true, 0);
    }
  }

  lemma CollapseSpaceFirst(s: string)
    requires s != [] && IsSpace(s[0])
    ensures CollapseWs(s)[0] == ' ' && LowerChar(' ') == ' '
  {
  }

  /** Collapsing whitespace keeps whitespace away from the front of `w`. */
  lemma {:induction false} CollapseNoSpacedWord(s: string, w: string)
    requires forall j :: 0 <= j < |w| ==> !IsSpace(LowerChar(w[j]))
    requires NoSpacedWord(s, w)
    ensures NoSpacedWord(CollapseWs(s), w)
    decreases |s|
  {
    var r := CollapseWs(s);
    if s != [] {
      var n := if IsSpace(s[0]) then LeadingWs(s) else 1;
      var t := s[n..];
      assert t == s[n..|s|];
      var rest := CollapseWs(t);
      assert r == [r[0]] + rest;
      assert r[1..] == rest;
      forall k | 0 <= k < |t| && IsSpace(t[k]) ensures !LitAt(t, k + 1, w, true) {
        LitAtSlice(s, n, |s|, k + 1, w, true);
      }
      CollapseNoSpacedWord(t, w);
      assert IsSpace(s[0]) ==> IsSpace(s[n - 1]);
      CollapseFront(s, w, n);
    }
  }

  /** The front of a collapsed text: the character written for `s[..n]`
      followed by the collapsed rest. */
  lemma CollapseFront(s: string, w: string, n: nat)
    requires forall j :: 0 <= j < |w| ==> !IsSpace(LowerChar(w[j]))
    requires 0 < n <= |s| && NoSpacedWord(s, w)
    requires IsSpace(s[0]) ==> IsSpace(s[n - 1])
    requires CollapseWs(s) == [CollapseWs(s)[0]] + CollapseWs(s[n..])
    requires NoSpacedWord(CollapseWs(s[n..]), w)
    ensures NoSpacedWord(CollapseWs(s), w)
  {
    var r := CollapseWs(s);
    assert r[1..] == CollapseWs(s[n..]);
    if IsSpace(r[0]) {
      assert IsSpace(s[0]);
      WordNotAfterRun(s, w, n);
    }
    ConsNoSpacedWord(r, w);
  }

  /** A text keeps whitespace away from the front of `w` when its tail does
      and its first character, if whitespace, is not followed by `w`. */
  lemma ConsNoSpacedWord(r: string, w: string)
    requires |r| > 0 && NoSpacedWord(r[1..], w)
    requires IsSpace(r[0]) ==> !LitAt(r[1..], 0, w, true)
    ensures NoSpacedWord(r, w)
  {
    var rest := r[1..];
    assert rest == r[1..|r|];
    forall k | 0 <= k < |r| && IsSpace(r[k]) ensures !LitAt(r, k + 1, w, true) {
      LitAtSlice(r, 1, |r|, k, w, true);
      if k > 0 {
        assert rest[k - 1] == r[k];
      }
    }
  }

  /** The text after a whitespace run does not start with `w`, not even
      once collapsed. */
  lemma WordNotAfterRun(s: string, w: string, n: nat)
    requires forall j :: 0 <= j < |w| ==> !IsSpace(LowerChar(w[j]))
    requires 0 < n <= |s| && NoSpacedWord(s, w) && IsSpace(s[n - 1])
    ensures !LitAt(CollapseWs(s[n..]), 0, w, true)
  {
    assert s[n..|s|] == s[n..];
    if LitAt(CollapseWs(s[n..]), 0, w, true) {
      CollapseLitPrefix(s[n..], w);
      LitAtSlice(s, n, |s|, 0, w, true);
    }
  }

  /** Trimming keeps whitespace away from the front of `w`. */
  lemma StripNoSpacedWord(s: string, w: string)
    requires NoSpacedWord(s, w)
    ensures NoSpacedWord(Strip(s), w)
  {
    var a := LeadingWs(s);
    if a < |s| {
      var b := |s| - TrailingWs(s);
      assert Strip(s) == s[a..b];
      NoSpacedWordInfix(s, a, b, w);
    }
  }

  lemma NoSpacedWordInfix(s: string, a: nat, b: nat, w: string)
    requires a <= b <= |s| && NoSpacedWord(s, w)
    ensures NoSpacedWord(s[a..b], w)
  {
    var x := s[a..b];
    forall k | 0 <= k < |x| && IsSpace(x[k]) ensures !LitAt(x, k + 1, w, true) {
      LitAtSlice(s, a, b, k + 1, w, true);
      assert s[a + k] == x[k];
    }
  }

}
