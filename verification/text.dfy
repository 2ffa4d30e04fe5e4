/** Python `str` behaviour the scripts rely on: character classes, case
    mapping, `strip`, `replace`, `in`, `split` and the `\s+ -> ' '` rewrite.
    Case mapping covers ASCII and the basic Cyrillic block (U+0400-U+045F);
    `\d` is the ASCII digits; `\w` is ASCII letters and digits, `_` and the
    letters of the Cyrillic block. */
module Text {

  // ---------------------------------------------------------------------
  // Character classes

  /** `str.isspace()` / the `\s` class of Python's `re` on `str` patterns. */
  predicate IsSpace(c: char) {
    var n := c as int;
    (9 <= n <= 13) || (28 <= n <= 32) || n == 0x85 || n == 0xA0 || n == 0x1680
    || (0x2000 <= n <= 0x200A) || n == 0x2028 || n == 0x2029 || n == 0x202F
    || n == 0x205F || n == 0x3000
  }

  predicate IsDigit(c: char) { '0' <= c <= '9' }

  predicate IsAsciiLetter(c: char) { ('A' <= c <= 'Z') || ('a' <= c <= 'z') }

  /** The range class `[А-Яа-я]` (U+0410-U+044F; it leaves out Ё and ё). */
  predicate IsCyrRange(c: char) { 'А' <= c <= 'я' }

  /** `[А-Яа-яA-Za-z]` */
  predicate IsLetterClass(c: char) { IsCyrRange(c) || IsAsciiLetter(c) }

  predicate IsUpperChar(c: char) {
    ('A' <= c <= 'Z') || ('Ѐ' <= c <= 'Я')
  }

  predicate IsLowerChar(c: char) {
    ('a' <= c <= 'z') || ('а' <= c <= 'џ')
  }

  predicate IsCased(c: char) { IsUpperChar(c) || IsLowerChar(c) }

  /** `\w`: letters, digits and `_`. */
  predicate IsWordChar(c: char) {
    IsAsciiLetter(c) || IsDigit(c) || c == '_'
    || ('Ѐ' <= c <= 'ҁ') || ('Ҋ' <= c <= 'ӿ')
  }

  function LowerChar(c: char): (r: char)
    ensures IsUpperChar(c) ==> IsLowerChar(r)
    ensures !IsUpperChar(c) ==> r == c
  {
    if 'A' <= c <= 'Z' then (c as int + 32) as char
    else if 'А' <= c <= 'Я' then (c as int + 32) as char
    else if 'Ѐ' <= c <= 'Џ' then (c as int + 80) as char
    else c
  }

  function UpperChar(c: char): (r: char)
    ensures IsLowerChar(c) ==> IsUpperChar(r)
    ensures !IsLowerChar(c) ==> r == c
  {
    if 'a' <= c <= 'z' then (c as int - 32) as char
    else if 'а' <= c <= 'я' then (c as int - 32) as char
    else if 'ѐ' <= c <= 'џ' then (c as int - 80) as char
    else c
  }

  /** Characters equal under `re.IGNORECASE`. */
  predicate SameIgnoringCase(a: char, b: char) {
    LowerChar(a) == LowerChar(b)
  }

  // ---------------------------------------------------------------------
  // Case mapping on strings

  function Lower(s: string): (r: string)
    ensures |r| == |s|
    ensures forall i :: 0 <= i < |s| ==> r[i] == LowerChar(s[i])
  {
    seq(|s|, i requires 0 <= i < |s| => LowerChar(s[i]))
  }

  function Upper(s: string): (r: string)
    ensures |r| == |s|
    ensures forall i :: 0 <= i < |s| ==> r[i] == UpperChar(s[i])
  {
    seq(|s|, i requires 0 <= i < |s| => UpperChar(s[i]))
  }

  /** `str.isupper()`: some cased character and no lower-case one. */
  predicate IsUpperStr(s: string) {
    (exists i :: 0 <= i < |s| && IsUpperChar(s[i]))
    && (forall i :: 0 <= i < |s| ==> !IsLowerChar(s[i]))
  }

  /** `str.title()`: a character after a cased character is lowered, any
      other is raised. */
  function Title(s: string): (r: string)
    ensures |r| == |s|
    ensures forall i :: 0 <= i < |s| ==>
      r[i] == (if i > 0 && IsCased(s[i - 1]) then LowerChar(s[i]) else UpperChar(s[i]))
  {
    seq(|s|, i requires 0 <= i < |s| =>
      if i > 0 && IsCased(s[i - 1]) then LowerChar(s[i]) else UpperChar(s[i]))
  }

  // ---------------------------------------------------------------------
  // Searching

  predicate StartsWith(s: string, t: string) {
    |t| <= |s| && s[..|t|] == t
  }

  /** Python's `t in s`. */
  predicate Contains(s: string, t: string)
    decreases |s|
  {
    StartsWith(s, t) || (|s| > 0 && Contains(s[1..], t))
  }

  lemma {:induction false} ContainsAt(s: string, t: string, i: nat)
    requires i + |t| <= |s| && s[i..i + |t|] == t
    ensures Contains(s, t)
    decreases i
  {
    if i > 0 {
      assert s[1..][i - 1..i - 1 + |t|] == s[i..i + |t|];
      ContainsAt(s[1..], t, i - 1);
    } else {
      assert s[..|t|] == s[0..|t|];
    }
  }

  lemma {:induction false} ContainsWitness(s: string, t: string) returns (i: nat)
    requires Contains(s, t)
    ensures i + |t| <= |s| && s[i..i + |t|] == t
    decreases |s|
  {
    if StartsWith(s, t) {
      i := 0;
    } else {
      var j := ContainsWitness(s[1..], t);
      i := j + 1;
      assert s[1..][j..j + |t|] == s[i..i + |t|];
    }
  }

  /** A pattern with a character that `s` lacks does not occur in `s`. */
  lemma {:induction false} MissingCharNotContained(s: string, t: string, k: nat)
    requires k < |t| && t[k] !in s
    ensures !Contains(s, t)
    decreases |s|
  {
    if k < |s| && |t| <= |s| {
      assert s[..|t|][k] == s[k];
    }
    if |s| > 0 {
      assert t[k] !in s[1..] by { assert forall c :: c in s[1..] ==> c in s; }
      MissingCharNotContained(s[1..], t, k);
    }
  }

  /** A single character is contained exactly when it occurs. */
  lemma {:induction false} ContainsChar(s: string, c: char)
    ensures Contains(s, [c]) <==> c in s
    decreases |s|
  {
    if |s| > 0 {
      ContainsChar(s[1..], c);
      assert s == [s[0]] + s[1..];
    }
  }

  // ---------------------------------------------------------------------
  // Whitespace

  /** Number of whitespace characters at the front of `s`. */
  function LeadingWs(s: string): (k: nat)
    ensures k <= |s|
    ensures forall i :: 0 <= i < k ==> IsSpace(s[i])
    ensures k < |s| ==> !IsSpace(s[k])
    decreases |s|
  {
    if |s| > 0 && IsSpace(s[0]) then 1 + LeadingWs(s[1..]) else 0
  }

  /** Number of whitespace characters at the end of `s`. */
  function TrailingWs(s: string): (k: nat)
    ensures k <= |s|
    ensures forall i :: |s| - k <= i < |s| ==> IsSpace(s[i])
    ensures k < |s| ==> !IsSpace(s[|s| - 1 - k])
    decreases |s|
  {
    if |s| > 0 && IsSpace(s[|s| - 1]) then 1 + TrailingWs(s[..|s| - 1]) else 0
  }

  predicate Trimmed(s: string) {
    |s| == 0 || (!IsSpace(s[0]) && !IsSpace(s[|s| - 1]))
  }

  /** `str.strip()`: the longest infix with no whitespace at either end. */
  function Strip(s: string): (r: string)
    ensures Trimmed(r)
    ensures |r| <= |s|
  {
    var a := LeadingWs(s);
    if a == |s| then [] else
      var b := TrailingWs(s);
      assert !IsSpace(s[a]);
      s[a..|s| - b]
  }

  /** What `Strip` removes is whitespace at the two ends and nothing else. */
  lemma StripIsInfix(s: string)
    ensures LeadingWs(s) + |Strip(s)| <= |s|
    ensures Strip(s) == s[LeadingWs(s)..LeadingWs(s) + |Strip(s)|]
    ensures forall i :: LeadingWs(s) + |Strip(s)| <= i < |s| ==> IsSpace(s[i])
  {
  }

  /** Stripping a trimmed string changes nothing. */
  lemma StripTrimmed(s: string)
    requires Trimmed(s)
    ensures Strip(s) == s
  {
    if |s| > 0 {
      assert LeadingWs(s) == 0 && TrailingWs(s) == 0;
      assert s[0..|s|] == s;
    }
  }

  /** Only whitespace: the test `s.strip() == ''`. */
  predicate Blank(s: string)
    decreases |s|
  {
    |s| == 0 || (IsSpace(s[0]) && Blank(s[1..]))
  }

  lemma {:induction false} BlankIsAllLeading(s: string)
    ensures Blank(s) <==> LeadingWs(s) == |s|
    decreases |s|
  {
    if |s| > 0 {
      BlankIsAllLeading(s[1..]);
    }
  }

  /** `Blank` is exactly "strips to the empty string". */
  lemma BlankIffStripsToEmpty(s: string)
    ensures Blank(s) <==> Strip(s) == ""
  {
    BlankIsAllLeading(s);
    StripIsInfix(s);
  }

  /** `str.strip(chars)` for a set of characters. */
  function StripChars(s: string, cs: set<char>): (r: string)
    ensures |r| == 0 || (r[0] !in cs && r[|r| - 1] !in cs)
    ensures |r| <= |s|
    decreases |s|
  {
    if |s| > 0 && s[0] in cs then StripChars(s[1..], cs)
    else if |s| > 0 && s[|s| - 1] in cs then StripChars(s[..|s| - 1], cs)
    else s
  }

  /** No two whitespace characters next to each other. */
  predicate NoDoubleWs(s: string) {
    forall i :: 0 <= i < |s| - 1 ==> !(IsSpace(s[i]) && IsSpace(s[i + 1]))
  }

  /** `re.sub(r'\s+', ' ', s)`: every whitespace run becomes one space. */
  function CollapseWs(s: string): (r: string)
    ensures NoDoubleWs(r)
    ensures forall i :: 0 <= i < |r| && IsSpace(r[i]) ==> r[i] == ' '
    ensures |s| > 0 ==> |r| > 0 && (IsSpace(r[0]) <==> IsSpace(s[0]))
    ensures |r| <= |s|
    decreases |s|
  {
    if s == [] then []
    else if IsSpace(s[0]) then
      var k := LeadingWs(s);
      [' '] + CollapseWs(s[k..])
    else [s[0]] + CollapseWs(s[1..])
  }

  /** Stripping keeps the absence of whitespace pairs. */
  lemma StripKeepsNoDoubleWs(s: string)
    requires NoDoubleWs(s)
    ensures NoDoubleWs(Strip(s))
  {
    var r := Strip(s);
    var a := LeadingWs(s);
    StripIsInfix(s);
    forall i | 0 <= i < |r| - 1 ensures !(IsSpace(r[i]) && IsSpace(r[i + 1])) {
      assert r[i] == s[a + i] && r[i + 1] == s[a + i + 1];
    }
  }

  // ---------------------------------------------------------------------
  // Rewriting

  /** `s.replace(pat, rep)`: leftmost, non-overlapping, left to right. */
  function Replace(s: string, pat: string, rep: string): (r: string)
    requires |pat| > 0
    decreases |s|
  {
    if |s| < |pat| then s
    else if s[..|pat|] == pat then rep + Replace(s[|pat|..], pat, rep)
    else [s[0]] + Replace(s[1..], pat, rep)
  }

  /** A pattern whose last character a tail lacks cannot reach into that
      tail, so it occurs in `p + n` only if it occurs in `p`. */
  lemma {:induction false} TailNotContained(p: string, n: string, pat: string)
    requires |pat| > 0 && pat[|pat| - 1] !in n && !Contains(p, pat)
    ensures !Contains(p + n, pat)
    decreases |p|
  {
    if p == [] {
      assert p + n == n;
      MissingCharNotContained(n, pat, |pat| - 1);
    } else {
      if |pat| <= |p| {
        assert (p + n)[..|pat|] == p[..|pat|];
      } else if |pat| <= |p + n| {
        assert (p + n)[|pat| - 1] == n[|pat| - 1 - |p|];
      }
      assert !StartsWith(p + n, pat);
      assert (p + n)[1..] == p[1..] + n;
      TailNotContained(p[1..], n, pat);
    }
  }

  /** A text that lacks the last character of every pattern is left alone. */
  lemma {:induction false} ReplaceEachTailFree(s: string, table: seq<(string, string)>)
    requires forall k :: 0 <= k < |table| ==> |table[k].0| > 0 && table[k].0[|table[k].0| - 1] !in s
    ensures ReplaceEach(s, table) == s
    decreases |table|
  {
    if table != [] {
      MissingCharNotContained(s, table[0].0, |table[0].0| - 1);
      ReplaceAbsent(s, table[0].0, table[0].1);
      ReplaceEachTailFree(s, table[1..]);
    }
  }

  /** A text made of one deletion pattern `p` followed by a tail that lacks
      the last character of every pattern loses exactly `p`, provided no
      earlier pattern occurs in `p`. */
  lemma {:induction false} ReplaceEachLeading(p: string, n: string, table: seq<(string, string)>, j: nat)
    requires forall k :: 0 <= k < |table| ==> |table[k].0| > 0 && table[k].0[|table[k].0| - 1] !in n
    requires j < |table| && table[j] == (p, "")
    requires forall k :: 0 <= k < j ==> !Contains(p, table[k].0)
    ensures ReplaceEach(p + n, table) == n
    decreases |table|
  {
    if j == 0 {
      DeleteLeading(p, n);
      ReplaceEachTailFree(n, table[1..]);
    } else {
      TailNotContained(p, n, table[0].0);
      ReplaceAbsent(p + n, table[0].0, table[0].1);
      ReplaceEachLeading(p, n, table[1..], j - 1);
    }
  }

  lemma DeleteLeading(p: string, n: string)
    requires |p| > 0 && p[|p| - 1] !in n
    ensures Replace(p + n, p, "") == n
  {
    assert (p + n)[..|p|] == p && (p + n)[|p|..] == n;
    MissingCharNotContained(n, p, |p| - 1);
    ReplaceAbsent(n, p, "");
  }

  /** A pattern no shorter than the text occurs in it only as the text itself. */
  lemma {:induction false} ShortNotContained(s: string, t: string)
    requires |s| <= |t| && s != t
    ensures !Contains(s, t)
    decreases |s|
  {
    if |s| > 0 {
      ShortNotContained(s[1..], t);
    }
    assert !StartsWith(s, t) by {
      if |t| <= |s| { assert s[..|t|] == s; }
    }
  }

  /** Leading table entries whose patterns do not occur are skipped. */
  lemma {:induction false} ReplaceEachSkips(s: string, table: seq<(string, string)>, m: nat)
    requires forall k :: 0 <= k < |table| ==> |table[k].0| > 0
    requires m <= |table| && forall k :: 0 <= k < m ==> !Contains(s, table[k].0)
    ensures ReplaceEach(s, table) == ReplaceEach(s, table[m..])
    decreases m
  {
    if m > 0 {
      ReplaceAbsent(s, table[0].0, table[0].1);
      ReplaceEachSkips(s, table[1..], m - 1);
      assert table[1..][m - 1..] == table[m..];
    }
  }

  /** One left-to-right pass can leave the pattern behind: deleting `К.К.`
      from `КК.К..К.` joins the first `К` to the last `.К.`. */
  lemma DeletionRejoins()
    ensures Replace(RejoinExample, "К.К.", "") == "К.К."
  {
    var s := RejoinExample;
    var t := s[1..];
    assert s[..4] != "К.К." by { assert s[1] == 'К'; }
    assert t == "К.К..К.";
    assert t[..4] == "К.К.";
    assert t[4..] == ".К.";
    assert Replace(".К.", "К.К.", "") == ".К.";
  }

  const RejoinExample := "КК.К..К."

  lemma RejoinExampleTrimmed()
    ensures Strip(RejoinExample) == RejoinExample && Strip("К.К.") == "К.К."
  {
    StripTrimmed(RejoinExample);
    StripTrimmed("К.К.");
  }

  /** Replacing something that does not occur changes nothing. */
  lemma {:induction false} ReplaceAbsent(s: string, pat: string, rep: string)
    requires |pat| > 0 && !Contains(s, pat)
    ensures Replace(s, pat, rep) == s
    decreases |s|
  {
    if |s| >= |pat| {
      assert !StartsWith(s, pat);
      ReplaceAbsent(s[1..], pat, rep);
      assert s == [s[0]] + s[1..];
    }
  }

  /** Every character of the result comes from the input or from `rep`. */
  lemma {:induction false} ReplaceChars(s: string, pat: string, rep: string, c: char)
    requires |pat| > 0 && c !in s && c !in rep
    ensures c !in Replace(s, pat, rep)
    decreases |s|
  {
    if |s| >= |pat| {
      if s[..|pat|] == pat {
        ReplaceChars(s[|pat|..], pat, rep, c);
      } else {
        ReplaceChars(s[1..], pat, rep, c);
      }
    }
  }

  /** Replacing a single character by nothing removes every occurrence. */
  lemma {:induction false} ReplaceCharRemoves(s: string, c: char)
    ensures c !in Replace(s, [c], "")
    ensures forall d :: d != c && d in s ==> d in Replace(s, [c], "")
    decreases |s|
  {
    if |s| >= 1 {
      ReplaceCharRemoves(s[1..], c);
      assert s == [s[0]] + s[1..];
    }
  }

  /** `str.split()` without arguments: the maximal non-whitespace runs. */
  function Words(s: string): (ws: seq<string>)
    ensures forall w :: w in ws ==> |w| > 0 && forall i :: 0 <= i < |w| ==> !IsSpace(w[i])
    decreases |s|
  {
    var a := LeadingWs(s);
    if a == |s| then []
    else
      var rest := s[a..];
      var n := WordLen(rest);
      [rest[..n]] + Words(rest[n..])
  }

  /** Length of the non-whitespace run at the front of `s`. */
  function WordLen(s: string): (k: nat)
    requires |s| > 0 && !IsSpace(s[0])
    ensures 0 < k <= |s|
    ensures forall i :: 0 <= i < k ==> !IsSpace(s[i])
    ensures k < |s| ==> IsSpace(s[k])
    decreases |s|
  {
    if |s| > 1 && !IsSpace(s[1]) then 1 + WordLen(s[1..]) else 1
  }

  /** `re.sub(r'[^\d]', '', s)`: the digits of `s`, in order. */
  function DigitsOnly(s: string): (r: string)
    ensures forall i :: 0 <= i < |r| ==> IsDigit(r[i])
    ensures |r| <= |s|
    ensures (forall i :: 0 <= i < |s| ==> IsDigit(s[i])) ==> r == s
  {
    if s == [] then []
    else if IsDigit(s[0]) then [s[0]] + DigitsOnly(s[1..])
    else DigitsOnly(s[1..])
  }

  /** `for old, new in table.items(): s = s.replace(old, new)`. */
  function ReplaceEach(s: string, table: seq<(string, string)>): string
    requires forall j :: 0 <= j < |table| ==> |table[j].0| > 0
    decreases |table|
  {
    if table == [] then s else ReplaceEach(Replace(s, table[0].0, table[0].1), table[1..])
  }

  /** `for old, new in table.items(): if old in s: s = s.replace(old, new)`. */
  function ReplacePresent(s: string, table: seq<(string, string)>): string
    requires forall j :: 0 <= j < |table| ==> |table[j].0| > 0
    decreases |table|
  {
    if table == [] then s
    else
      var t := if Contains(s, table[0].0) then Replace(s, table[0].0, table[0].1) else s;
      ReplacePresent(t, table[1..])
  }

  /** With no key present, the table changes nothing. */
  lemma {:induction false} ReplacePresentNone(s: string, table: seq<(string, string)>)
    requires forall j :: 0 <= j < |table| ==> |table[j].0| > 0 && !Contains(s, table[j].0)
    ensures ReplacePresent(s, table) == s
    decreases |table|
  {
    if table != [] {
      ReplacePresentNone(s, table[1..]);
    }
  }

  /** Replacing an occurring pattern puts the replacement text in. */
  lemma {:induction false} ReplaceIntroduces(s: string, pat: string, rep: string)
    requires |pat| > 0 && Contains(s, pat)
    ensures Contains(Replace(s, pat, rep), rep)
    decreases |s|
  {
    var i := ContainsWitness(s, pat);
    if s[..|pat|] == pat {
      var r := Replace(s, pat, rep);
      assert r[..|rep|] == rep;
    } else {
      assert !StartsWith(s, pat);
      ReplaceIntroduces(s[1..], pat, rep);
      var r := Replace(s, pat, rep);
      assert r[1..] == Replace(s[1..], pat, rep);
    }
  }

  /** A replacement at least as long as the pattern never shortens the
      text, and a longer one lengthens any text in which it occurs. */
  lemma {:induction false} ReplaceLength(s: string, pat: string, rep: string)
    requires 0 < |pat| <= |rep|
    ensures |Replace(s, pat, rep)| >= |s|
    ensures |pat| < |rep| && Contains(s, pat) ==> |Replace(s, pat, rep)| > |s|
    decreases |s|
  {
    if Contains(s, pat) {
      var _ := ContainsWitness(s, pat);
    }
    if |s| >= |pat| {
      if s[..|pat|] == pat {
        ReplaceLength(s[|pat|..], pat, rep);
      } else {
        assert !StartsWith(s, pat);
        ReplaceLength(s[1..], pat, rep);
      }
    }
  }

  /** Occurrence is transitive. */
  lemma ContainsTrans(a: string, b: string, c: string)
    requires Contains(a, b) && Contains(b, c)
    ensures Contains(a, c)
  {
    var i := ContainsWitness(a, b);
    var j := ContainsWitness(b, c);
    assert b == a[i..i + |b|];
    forall k | 0 <= k < |c| ensures a[i + j..i + j + |c|][k] == c[k] {
      assert c[k] == b[j + k] == a[i + j + k];
    }
    assert a[i + j..i + j + |c|] == c;
    ContainsAt(a, c, i + j);
  }

  /** A character absent from the input and from every replacement text is
      absent from the output. */
  lemma {:induction false} ReplaceEachKeepsOut(s: string, table: seq<(string, string)>, c: char)
    requires forall j :: 0 <= j < |table| ==> |table[j].0| > 0 && c !in table[j].1
    requires c !in s
    ensures c !in ReplaceEach(s, table)
    decreases |table|
  {
    if table != [] {
      ReplaceChars(s, table[0].0, table[0].1, c);
      ReplaceEachKeepsOut(Replace(s, table[0].0, table[0].1), table[1..], c);
    }
  }

  /** A character absent from the text and from every replacement stays
      absent, whichever keys are present. */
  lemma {:induction false} ReplacePresentKeepsOut(s: string, table: seq<(string, string)>, c: char)
    requires forall j :: 0 <= j < |table| ==> |table[j].0| > 0 && c !in table[j].1
    requires c !in s
    ensures c !in ReplacePresent(s, table)
    decreases |table|
  {
    if table != [] {
      ReplaceChars(s, table[0].0, table[0].1, c);
      var t := if Contains(s, table[0].0) then Replace(s, table[0].0, table[0].1) else s;
      ReplacePresentKeepsOut(t, table[1..], c);
    }
  }

  /** A table whose first entry deletes `c`, and none of whose replacements
      writes `c`, leaves no `c` behind. */
  lemma FirstDeletionKeepsOut(s: string, table: seq<(string, string)>, c: char)
    requires table != [] && table[0] == ([c], "")
    requires forall j :: 0 <= j < |table| ==> |table[j].0| > 0 && c !in table[j].1
    ensures c !in ReplaceEach(s, table)
  {
    var s0 := Replace(s, [c], "");
    ReplaceCharRemoves(s, c);
    assert ReplaceEach(s, table) == ReplaceEach(s0, table[1..]);
    ReplaceEachKeepsOut(s0, table[1..], c);
  }

  /** Collapsing whitespace only ever writes a space. */
  lemma {:induction false} CollapseKeepsOut(s: string, c: char)
    requires c !in s && c != ' '
    ensures c !in CollapseWs(s)
    decreases |s|
  {
    if s != [] {
      if IsSpace(s[0]) {
        var k := LeadingWs(s);
        assert c !in s[k..] by { assert forall x :: x in s[k..] ==> x in s; }
        CollapseKeepsOut(s[k..], c);
      } else {
        assert c !in s[1..] by { assert forall x :: x in s[1..] ==> x in s; }
        CollapseKeepsOut(s[1..], c);
      }
    }
  }

  /** `t` starts at no position of `x`. */
  predicate Absent(x: string, t: string) {
    forall k: nat :: k <= |x| ==> !OccursAt(x, t, k)
  }

  /** `t` starts at position `k` of `x`. */
  predicate OccursAt(x: string, t: string, k: nat) {
    k + |t| <= |x| && x[k..k + |t|] == t
  }

  lemma {:induction false} AbsentNotContained(x: string, t: string)
    requires |t| > 0 && Absent(x, t)
    ensures !Contains(x, t)
    decreases |x|
  {
    if |t| <= |x| {
      assert x[..|t|] == x[0..|t|];
      assert !OccursAt(x, t, 0);
    }
    if |x| > 0 {
      AbsentInfix(x, t, 1, |x|);
      assert x[1..|x|] == x[1..];
      AbsentNotContained(x[1..], t);
    }
  }

  lemma AbsentInfix(x: string, t: string, a: nat, b: nat)
    requires a <= b <= |x| && Absent(x, t)
    ensures Absent(x[a..b], t)
  {
    var y := x[a..b];
    forall k: nat | k <= |y| ensures !OccursAt(y, t, k) {
      if k + |t| <= |y| {
        var u, v := y[k..k + |t|], x[a + k..a + k + |t|];
        assert forall m :: 0 <= m < |u| ==> u[m] == v[m];
        assert u == v;
        assert !OccursAt(x, t, a + k);
      }
    }
  }

  /** Collapsing does not create a whitespace-free prefix the input lacked. */
  lemma {:induction false} CollapsePrefix(s: string, w: string)
    requires forall i :: 0 <= i < |w| ==> !IsSpace(w[i])
    requires |w| <= |CollapseWs(s)| && CollapseWs(s)[..|w|] == w
    ensures |w| <= |s| && s[..|w|] == w
    decreases |s|
  {
    if |w| > 0 && !IsSpace(s[0]) {
      var r := CollapseWs(s[1..]);
      assert CollapseWs(s) == [s[0]] + r;
      assert r[..|w| - 1] == w[1..];
      CollapsePrefix(s[1..], w[1..]);
      assert s[..|w|] == [s[0]] + s[1..][..|w| - 1];
    }
  }

  /** Collapsing keeps a whitespace-free word absent. */
  lemma {:induction false} CollapseKeepsAbsent(s: string, t: string)
    requires |t| > 0 && (forall i :: 0 <= i < |t| ==> !IsSpace(t[i])) && Absent(s, t)
    ensures Absent(CollapseWs(s), t)
    decreases |s|
  {
    var r := CollapseWs(s);
    if s != [] {
      var n := if IsSpace(s[0]) then LeadingWs(s) else 1;
      var rest := CollapseWs(s[n..]);
      assert r == [r[0]] + rest;
      AbsentInfix(s, t, n, |s|);
      assert s[n..|s|] == s[n..];
      CollapseKeepsAbsent(s[n..], t);
      forall k: nat | k <= |r| && k + |t| <= |r| ensures !OccursAt(r, t, k) {
        if k > 0 {
          assert r[k..k + |t|] == rest[k - 1..k - 1 + |t|];
          assert !OccursAt(rest, t, k - 1);
        } else if !IsSpace(s[0]) && r[..|t|] == t {
          AbsentAtStart(s, t);
          CollapsePrefix(s, t);
        }
      }
    }
  }

  lemma AbsentAtStart(s: string, t: string)
    requires Absent(s, t)
    ensures |t| <= |s| ==> s[..|t|] != t
  {
    if |t| <= |s| {
      assert s[..|t|] == s[0..|t|];
      assert !OccursAt(s, t, 0);
    }
  }

  /** Stripping keeps a word absent. */
  lemma StripKeepsAbsent(s: string, t: string)
    requires Absent(s, t)
    ensures Absent(Strip(s), t)
  {
    StripIsInfix(s);
    AbsentInfix(s, t, LeadingWs(s), LeadingWs(s) + |Strip(s)|);
  }

  /** After collapsing there is no line break left. */
  lemma CollapseHasNoLineBreak(s: string)
    ensures '\n' !in CollapseWs(s)
  {
    var r := CollapseWs(s);
    assert IsSpace('\n');
    assert forall i :: 0 <= i < |r| ==> r[i] != '\n';
  }

  lemma StripKeepsOut(s: string, c: char)
    requires c !in s
    ensures c !in Strip(s)
  {
    StripIsInfix(s);
    assert forall x :: x in Strip(s) ==> x in s;
  }

  /** Two strings without whitespace pairs whose junction is not a pair. */
  lemma NoDoubleWsConcat(a: string, b: string)
    requires NoDoubleWs(a) && NoDoubleWs(b)
    requires a == [] || b == [] || !(IsSpace(a[|a| - 1]) && IsSpace(b[0]))
    ensures NoDoubleWs(a + b)
  {
    var r := a + b;
    forall i | 0 <= i < |r| - 1 ensures !(IsSpace(r[i]) && IsSpace(r[i + 1])) {
      if i + 1 < |a| {
        assert r[i] == a[i] && r[i + 1] == a[i + 1];
      } else if i >= |a| {
        assert r[i] == b[i - |a|] && r[i + 1] == b[i - |a| + 1];
      }
    }
  }

  /** The same, as an implication that callers need not establish first. */
  lemma NoDoubleWsJoin(a: string, b: string)
    ensures (NoDoubleWs(a) && NoDoubleWs(b) &&
             (a == [] || b == [] || !(IsSpace(a[|a| - 1]) && IsSpace(b[0])))) ==> NoDoubleWs(a + b)
  {
    if NoDoubleWs(a) && NoDoubleWs(b) && (a == [] || b == [] || !(IsSpace(a[|a| - 1]) && IsSpace(b[0]))) {
      NoDoubleWsConcat(a, b);
    }
  }

  lemma NoDoubleWsPrefix(s: string, n: nat)
    requires NoDoubleWs(s) && n <= |s|
    ensures NoDoubleWs(s[..n])
  {
    assert forall i :: 0 <= i < n ==> s[..n][i] == s[i];
  }
}
