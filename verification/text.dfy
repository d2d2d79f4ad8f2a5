/** The Python `str` operations the clinic code relies on, over `string`.

  Case mapping covers ASCII and the Latin-1 letters whose Python case mapping is
  a single character (plus `ÿ`/`Ÿ`); whitespace is exactly the set Python's
  `str.split()` and `str.strip()` treat as whitespace.
 */
module Text {

  /** Python's `str.isspace()` for one character. Every whitespace character
      is at most `' '` or at least U+0085, so printable ASCII is decided by the
      first test. */
  predicate IsSpace(c: char) {
    if ' ' < c < '\U{85}' then false
    else
      || c == ' ' || c == '\t' || c == '\n' || c == '\r' || c == '\U{B}' || c == '\U{C}'
      || ('\U{1C}' <= c <= '\U{1F}') || c == '\U{85}' || c == '\U{A0}' || c == '\U{1680}'
      || ('\U{2000}' <= c <= '\U{200A}') || c == '\U{2028}' || c == '\U{2029}'
      || c == '\U{202F}' || c == '\U{205F}' || c == '\U{3000}'
  }

  predicate NoSpace(s: string) {
    forall i :: 0 <= i < |s| ==> !IsSpace(s[i])
  }

  function LowerChar(c: char): char {
    if 'A' <= c <= 'Z' || ('\U{C0}' <= c <= '\U{DE}' && c != '\U{D7}') then (c as int + 32) as char
    else if c == '\U{178}' then '\U{FF}'
    else c
  }

  function UpperChar(c: char): char {
    if 'a' <= c <= 'z' || ('\U{E0}' <= c <= '\U{FE}' && c != '\U{F7}') then (c as int - 32) as char
    else if c == '\U{FF}' then '\U{178}'
    else c
  }

  /** A cased letter: one with an upper- or lower-case form, or one of the
      lower-case letters `ª`, `µ`, `º` and `ß`, whose case mapping is left out. */
  predicate IsCased(c: char) {
    LowerChar(c) != c || UpperChar(c) != c || c == '\U{AA}' || c == '\U{B5}' || c == '\U{BA}' || c == '\U{DF}'
  }

  /** Python's `s.lower()`. */
  function Lower(s: string): string {
    seq(|s|, i requires 0 <= i < |s| => LowerChar(s[i]))
  }

  /** Every character of `s` is its own lower-case form: `s.lower() == s`. */
  predicate IsLower(s: string) {
    forall i :: 0 <= i < |s| ==> LowerChar(s[i]) == s[i]
  }

  /** Python's `s.capitalize()`: first character upper-cased, the rest lower-cased. */
  function Capitalize(s: string): (r: string)
    ensures |r| == |s|
    ensures Lower(r) == Lower(s)
  {
    if s == [] then [] else
      var r := [UpperChar(s[0])] + Lower(s[1..]);
      assert forall i :: 1 <= i < |s| ==> LowerChar(r[i]) == LowerChar(LowerChar(s[i])) == LowerChar(s[i]);
      r
  }

  /** Python's `s.title()`: a cased letter following a cased letter is lower-cased,
      any other character is upper-cased. */
  function Title(s: string): (r: string)
    ensures |r| == |s|
    ensures Lower(r) == Lower(s)
  {
    TitleAfter(s, false)
  }

  function TitleAfter(s: string, previousCased: bool): (r: string)
    ensures |r| == |s|
    ensures forall i :: 0 <= i < |s| ==> LowerChar(r[i]) == LowerChar(s[i])
  {
    if s == [] then []
    else [if previousCased then LowerChar(s[0]) else UpperChar(s[0])] + TitleAfter(s[1..], IsCased(s[0]))
  }

  /** End of the run of whitespace that starts at position `i`. */
  function SpaceRunEnd(s: string, i: nat): (n: nat)
    requires i <= |s|
    ensures i <= n <= |s|
    decreases |s| - i
  {
    if i < |s| && IsSpace(s[i]) then SpaceRunEnd(s, i + 1) else i
  }

  /** Start of the run of whitespace that ends just before position `j`. */
  function SpaceRunStart(s: string, j: nat): (n: nat)
    requires j <= |s|
    ensures n <= j
  {
    if j > 0 && IsSpace(s[j - 1]) then SpaceRunStart(s, j - 1) else j
  }

  /** Python's `s.lstrip()`. */
  function TrimLeft(s: string): string {
    s[SpaceRunEnd(s, 0)..]
  }

  /** Python's `s.rstrip()`. */
  function TrimRight(s: string): string {
    s[..SpaceRunStart(s, |s|)]
  }

  /** Python's `s.strip()`. */
  function Strip(s: string): string {
    TrimRight(TrimLeft(s))
  }

  lemma {:induction false} SpaceRunEndShape(s: string, i: nat)
    requires i <= |s|
    ensures var n := SpaceRunEnd(s, i);
      && (forall k :: i <= k < n ==> IsSpace(s[k]))
      && (n == |s| || !IsSpace(s[n]))
    decreases |s| - i
  {
    if i < |s| && IsSpace(s[i]) {
      SpaceRunEndShape(s, i + 1);
    }
  }

  lemma {:induction false} SpaceRunStartShape(s: string, j: nat)
    requires j <= |s|
    ensures var n := SpaceRunStart(s, j);
      && (forall k :: n <= k < j ==> IsSpace(s[k]))
      && (n == 0 || !IsSpace(s[n - 1]))
  {
    if j > 0 && IsSpace(s[j - 1]) {
      SpaceRunStartShape(s, j - 1);
    }
  }

  /** `lstrip` removes exactly the leading run of whitespace. */
  lemma {:induction false} TrimLeftShape(s: string)
    ensures var r := TrimLeft(s);
      && |r| <= |s| && r == s[|s| - |r|..]
      && (forall i :: 0 <= i < |s| - |r| ==> IsSpace(s[i]))
      && (r == [] || !IsSpace(r[0]))
  {
    SpaceRunEndShape(s, 0);
  }

  /** `rstrip` removes exactly the trailing run of whitespace. */
  lemma {:induction false} TrimRightShape(s: string)
    ensures var r := TrimRight(s);
      && |r| <= |s| && r == s[..|r|]
      && (forall i :: |r| <= i < |s| ==> IsSpace(s[i]))
      && (r == [] || !IsSpace(r[|r| - 1]))
  {
    SpaceRunStartShape(s, |s|);
  }

  /** A string with no surrounding whitespace is its own strip. */
  lemma {:induction false} StripUnchanged(s: string)
    requires s == [] || (!IsSpace(s[0]) && !IsSpace(s[|s| - 1]))
    ensures Strip(s) == s
  {
    assert s[0..] == s;
    assert s[..|s|] == s;
  }

  /** Length of the run of non-whitespace characters at the start of `s`. */
  function WordLen(s: string): (n: nat)
    ensures n <= |s|
  {
    if s == [] || IsSpace(s[0]) then 0 else 1 + WordLen(s[1..])
  }

  /** The first word ends at the first whitespace character, or at the end. */
  lemma {:induction false} WordLenShape(s: string)
    ensures var n := WordLen(s);
      && (forall i :: 0 <= i < n ==> !IsSpace(s[i]))
      && (n == |s| || IsSpace(s[n]))
  {
    if s != [] && !IsSpace(s[0]) {
      WordLenShape(s[1..]);
    }
  }

  /** Python's `s.split()` with no separator: the maximal runs of non-whitespace. */
  function Words(s: string): seq<string>
    decreases |s|
  {
    if s == [] then []
    else if IsSpace(s[0]) then Words(s[1..])
    else
      var n := WordLen(s);
      [s[..n]] + Words(s[n..])
  }

  /** `split()` yields non-empty words free of whitespace. */
  lemma {:induction false} WordsWellFormed(s: string)
    ensures WellFormedWords(Words(s))
    decreases |s|
  {
    if s != [] {
      if IsSpace(s[0]) {
        WordsWellFormed(s[1..]);
      } else {
        var n := WordLen(s);
        WordLenShape(s);
        WordsWellFormed(s[n..]);
      }
    }
  }

  /** Python's `" ".join(ws)`. */
  function Join(ws: seq<string>): string {
    if |ws| == 0 then "" else if |ws| == 1 then ws[0] else ws[0] + " " + Join(ws[1..])
  }

  /** Words as `split()` produces them: non-empty and free of whitespace. */
  predicate WellFormedWords(ws: seq<string>) {
    forall i :: 0 <= i < |ws| ==> ws[i] != [] && NoSpace(ws[i])
  }

  lemma {:induction false} WordLenOfWord(w: string, t: string)
    requires NoSpace(w)
    requires t == [] || IsSpace(t[0])
    ensures WordLen(w + t) == |w|
  {
    if w != [] {
      assert (w + t)[1..] == w[1..] + t;
      WordLenOfWord(w[1..], t);
    }
  }

  /** Splitting a join of well-formed words gives the words back. */
  lemma {:induction false} WordsOfJoin(ws: seq<string>)
    requires WellFormedWords(ws)
    ensures Words(Join(ws)) == ws
  {
    if |ws| == 1 {
      var w := ws[0];
      WordLenOfWord(w, []);
      assert w + [] == w;
      assert w[..|w|] == w && w[|w|..] == [];
    } else if |ws| > 1 {
      var w := ws[0];
      var rest := Join(ws[1..]);
      var s := w + " " + rest;
      assert s == w + (" " + rest);
      WordLenOfWord(w, " " + rest);
      assert s[..|w|] == w;
      assert s[|w|..] == " " + rest;
      assert (" " + rest)[1..] == rest;
      WordsOfJoin(ws[1..]);
      assert Words(s[|w|..]) == Words(rest);
    }
  }

  /** A join of well-formed words has no surrounding whitespace, and its only
      whitespace is single ' ' separators. */
  lemma {:induction false} JoinShape(ws: seq<string>)
    requires WellFormedWords(ws)
    ensures var s := Join(ws);
      && (s == [] || (!IsSpace(s[0]) && !IsSpace(s[|s| - 1])))
      && (forall i :: 0 <= i < |s| && IsSpace(s[i]) ==> s[i] == ' ')
      && (forall i :: 0 <= i < |s| - 1 ==> !(IsSpace(s[i]) && IsSpace(s[i + 1])))
  {
    if |ws| > 1 {
      var w := ws[0];
      var rest := Join(ws[1..]);
      JoinShape(ws[1..]);
      var s := w + " " + rest;
      assert rest != [] by {
        assert ws[1..][0] != [];
        JoinNonEmpty(ws[1..]);
      }
      forall i | 0 <= i < |s| && IsSpace(s[i])
        ensures s[i] == ' '
      {
        if i > |w| {
          assert s[i] == rest[i - |w| - 1];
        }
      }
      forall i | 0 <= i < |s| - 1
        ensures !(IsSpace(s[i]) && IsSpace(s[i + 1]))
      {
        if i > |w| {
          assert s[i] == rest[i - |w| - 1];
          assert s[i + 1] == rest[i - |w|];
        }
      }
    }
  }

  lemma {:induction false} JoinNonEmpty(ws: seq<string>)
    requires WellFormedWords(ws) && |ws| > 0
    ensures Join(ws) != []
  {
  }

  /** Lower-case words join into a lower-case string. */
  lemma {:induction false} JoinLower(ws: seq<string>)
    requires forall i :: 0 <= i < |ws| ==> IsLower(ws[i])
    ensures IsLower(Join(ws))
  {
    if |ws| > 1 {
      JoinLower(ws[1..]);
    }
  }

  /** Lower-casing an already lower-cased character changes nothing. */
  lemma LowerCharIdempotent(c: char)
    ensures LowerChar(LowerChar(c)) == LowerChar(c)
  {
  }

  /** `s.lower()` is lower-case, and a lower-case string is its own `lower()`. */
  lemma {:induction false} LowerShape(s: string)
    ensures IsLower(Lower(s))
    ensures IsLower(s) ==> Lower(s) == s
  {
    forall i | 0 <= i < |s|
      ensures LowerChar(Lower(s)[i]) == Lower(s)[i]
    {
      LowerCharIdempotent(s[i]);
    }
  }

  /** Every piece of a lower-case string is lower-case. */
  lemma {:induction false} LowerSlice(s: string, i: nat, j: nat)
    requires IsLower(s) && i <= j <= |s|
    ensures IsLower(s[i..j])
  {
    assert forall k :: 0 <= k < j - i ==> s[i..j][k] == s[i + k];
  }

  /** The words of a lower-case string are lower-case. */
  lemma {:induction false} WordsLower(s: string)
    requires IsLower(s)
    ensures forall i :: 0 <= i < |Words(s)| ==> IsLower(Words(s)[i])
    decreases |s|
  {
    if s != [] {
      LowerSlice(s, 1, |s|);
      WordsLower(s[1..]);
      if !IsSpace(s[0]) {
        var n := WordLen(s);
        LowerSlice(s, 0, n);
        LowerSlice(s, n, |s|);
        WordsLower(s[n..]);
      }
    }
  }

  /** Lower-casing neither creates nor removes whitespace. */
  lemma LowerKeepsSpaces(c: char)
    ensures IsSpace(LowerChar(c)) == IsSpace(c)
    ensures IsSpace(c) ==> LowerChar(c) == c
  {
  }

  /** Two strings with whitespace at the same positions have the same
      whitespace runs. */
  lemma {:induction false} SameSpacingRuns(s: string, t: string, i: nat, j: nat)
    requires |s| == |t|
    requires forall k :: 0 <= k < |s| ==> IsSpace(s[k]) == IsSpace(t[k])
    requires i <= |s| && j <= |s|
    ensures SpaceRunEnd(s, i) == SpaceRunEnd(t, i)
    ensures SpaceRunStart(s, j) == SpaceRunStart(t, j)
    decreases |s| - i + j
  {
    if i < |s| && IsSpace(s[i]) {
      SameSpacingRuns(s, t, i + 1, j);
    } else if j > 0 && IsSpace(s[j - 1]) {
      SameSpacingRuns(s, t, i, j - 1);
    }
  }

  lemma {:induction false} LowerSpacing(s: string)
    ensures |Lower(s)| == |s|
    ensures forall k :: 0 <= k < |s| ==> IsSpace(s[k]) == IsSpace(Lower(s)[k])
  {
    forall k | 0 <= k < |s|
      ensures IsSpace(s[k]) == IsSpace(Lower(s)[k])
    {
      LowerKeepsSpaces(s[k]);
    }
  }

  lemma LowerDrop(s: string, a: nat)
    requires a <= |s|
    ensures Lower(s)[a..] == Lower(s[a..])
  {
  }

  lemma LowerTake(s: string, b: nat)
    requires b <= |s|
    ensures Lower(s)[..b] == Lower(s[..b])
  {
  }

  /** Lower-casing commutes with stripping. */
  lemma {:induction false} LowerStrip(s: string)
    ensures Lower(Strip(s)) == Strip(Lower(s))
  {
    var t := Lower(s);
    LowerSpacing(s);
    SameSpacingRuns(s, t, 0, |s|);
    var a := SpaceRunEnd(s, 0);
    var u := s[a..];
    var v := t[a..];
    LowerDrop(s, a);
    LowerSpacing(u);
    SameSpacingRuns(u, v, 0, |u|);
    var b := SpaceRunStart(u, |u|);
    LowerTake(u, b);
    assert Strip(s) == u[..b];
    assert Strip(t) == v[..b];
  }

  /** Only whitespace: nothing to split. */
  lemma {:induction false} WordsOfSpaces(s: string)
    requires forall k :: 0 <= k < |s| ==> IsSpace(s[k])
    ensures Words(s) == []
  {
    if s != [] {
      WordsOfSpaces(s[1..]);
    }
  }

  /** Leading whitespace does not change the split. */
  lemma {:induction false} WordsDropSpaces(s: string, i: nat)
    requires i <= |s|
    requires forall k :: 0 <= k < i ==> IsSpace(s[k])
    ensures Words(s[i..]) == Words(s)
  {
    if i > 0 {
      assert s[1..][i - 1..] == s[i..];
      WordsDropSpaces(s[1..], i - 1);
    }
  }

  /** The first word of a string is the first word of any prefix that ends
      at whitespace. */
  lemma {:induction false} WordLenOfPrefix(s: string, k: nat)
    requires k <= |s|
    requires k == |s| || IsSpace(s[k])
    ensures WordLen(s[..k]) == WordLen(s)
  {
    var n := WordLen(s);
    var m := WordLen(s[..k]);
    WordLenShape(s);
    WordLenShape(s[..k]);
    if m < k {
      assert IsSpace(s[m]);
    }
  }

  /** Trailing whitespace does not change the split. */
  lemma {:induction false} WordsTakeSpaces(s: string, k: nat)
    requires k <= |s|
    requires forall i :: k <= i < |s| ==> IsSpace(s[i])
    ensures Words(s[..k]) == Words(s)
    decreases |s|
  {
    if k == 0 {
      WordsOfSpaces(s);
    } else if IsSpace(s[0]) {
      WordsTakeSpacesAfterSpace(s, k);
    } else {
      WordsTakeSpacesAfterWord(s, k);
    }
  }

  lemma {:induction false} WordsTakeSpacesAfterSpace(s: string, k: nat)
    requires 0 < k <= |s| && IsSpace(s[0])
    requires forall i :: k <= i < |s| ==> IsSpace(s[i])
    ensures Words(s[..k]) == Words(s)
    decreases |s|, 0
  {
    var t := s[..k];
    var u := s[1..];
    assert t[1..] == u[..k - 1];
    assert forall i :: k - 1 <= i < |u| ==> u[i] == s[i + 1];
    WordsTakeSpaces(u, k - 1);
  }

  lemma {:induction false} WordsTakeSpacesAfterWord(s: string, k: nat)
    requires 0 < k <= |s| && !IsSpace(s[0])
    requires forall i :: k <= i < |s| ==> IsSpace(s[i])
    ensures Words(s[..k]) == Words(s)
    decreases |s|, 0
  {
    var t := s[..k];
    var n := WordLen(s);
    WordLenOfPrefix(s, k);
    assert 0 < n <= k by {
      WordLenShape(s);
    }
    var u := s[n..];
    SpacesAfterDrop(s, n, k);
    WordsTakeSpaces(u, k - n);
    calc {
      Words(t);
    == { WordsOfWord(t, n); }
      [t[..n]] + Words(t[n..]);
    == { assert t[..n] == s[..n]; assert t[n..] == u[..k - n]; }
      [s[..n]] + Words(u[..k - n]);
    ==
      [s[..n]] + Words(u);
    == { WordsOfWord(s, n); }
      Words(s);
    }
  }

  lemma SpacesAfterDrop(s: string, n: nat, k: nat)
    requires n <= k <= |s|
    requires forall i :: k <= i < |s| ==> IsSpace(s[i])
    ensures forall i :: k - n <= i < |s[n..]| ==> IsSpace(s[n..][i])
  {
    forall i | k - n <= i < |s[n..]|
      ensures IsSpace(s[n..][i])
    {
      assert s[n..][i] == s[n + i];
    }
  }

  /** A string that starts with a word splits into that word and the split
      of the rest. */
  lemma WordsOfWord(s: string, n: nat)
    requires s != [] && !IsSpace(s[0]) && n == WordLen(s)
    ensures Words(s) == [s[..n]] + Words(s[n..])
  {
  }

  /** Splitting ignores surrounding whitespace. */
  lemma {:induction false} WordsStrip(s: string)
    ensures Words(Strip(s)) == Words(s)
  {
    var a := SpaceRunEnd(s, 0);
    SpaceRunEndShape(s, 0);
    WordsDropSpaces(s, a);
    var u := s[a..];
    SpaceRunStartShape(u, |u|);
    WordsTakeSpaces(u, SpaceRunStart(u, |u|));
  }

  /** Python's `value.endswith(suffix)`. */
  predicate EndsWith(s: string, suffix: string) {
    |suffix| <= |s| && s[|s| - |suffix|..] == suffix
  }

  /** Python's `value.startswith(prefix)`. */
  predicate StartsWith(s: string, prefix: string) {
    |prefix| <= |s| && s[..|prefix|] == prefix
  }

  /** Python's `sub in s` for strings. */
  predicate Contains(s: string, sub: string)
    decreases |s|
  {
    StartsWith(s, sub) || (s != [] && Contains(s[1..], sub))
  }

  /** `sub` occurs in `s` starting at position `i`. */
  predicate OccursAt(s: string, sub: string, i: int) {
    0 <= i <= |s| - |sub| && s[i..i + |sub|] == sub
  }

  /** `Contains` holds exactly when `sub` occurs at some position of `s`. */
  lemma {:induction false} ContainsAt(s: string, sub: string)
    ensures Contains(s, sub) <==> exists i :: OccursAt(s, sub, i)
  {
    if s == [] {
      if exists i :: OccursAt(s, sub, i) {
        var i :| OccursAt(s, sub, i);
        assert i == 0 && sub == [];
      }
      if sub == [] {
        assert OccursAt(s, sub, 0);
      }
    } else {
      ContainsAt(s[1..], sub);
      if StartsWith(s, sub) {
        assert OccursAt(s, sub, 0);
      } else if Contains(s[1..], sub) {
        var i :| OccursAt(s[1..], sub, i);
        assert s[1..][i..i + |sub|] == s[i + 1..i + 1 + |sub|];
        assert OccursAt(s, sub, i + 1);
      }
      if exists i :: OccursAt(s, sub, i) {
        var i :| OccursAt(s, sub, i);
        if i > 0 {
          assert s[1..][i - 1..i - 1 + |sub|] == s[i..i + |sub|];
          assert OccursAt(s[1..], sub, i - 1);
        } else {
          assert s[..|sub|] == s[0..|sub|];
        }
      }
    }
  }

  /** Python's `s.replace(a, b)` for one-character `a` and `b`. */
  function ReplaceChar(s: string, a: char, b: char): string {
    seq(|s|, i requires 0 <= i < |s| => if s[i] == a then b else s[i])
  }

  /** Replacing a character the string does not hold changes nothing. */
  lemma {:induction false} ReplaceAbsent(s: string, a: char, b: char)
    requires forall i :: 0 <= i < |s| ==> s[i] != a
    ensures ReplaceChar(s, a, b) == s
  {
  }

  /** Replacing `a` by `b` and then `b` by `a` restores a string that held no
      `b`. */
  lemma {:induction false} ReplaceBack(s: string, a: char, b: char)
    requires forall i :: 0 <= i < |s| ==> s[i] != b
    ensures ReplaceChar(ReplaceChar(s, a, b), b, a) == s
  {
  }

  /** Python's `s.replace(c, "")` for one character `c`. */
  function RemoveChar(s: string, c: char): (r: string)
    ensures forall i :: 0 <= i < |r| ==> r[i] != c
    ensures |r| <= |s|
  {
    if s == [] then [] else (if s[0] == c then [] else [s[0]]) + RemoveChar(s[1..], c)
  }

  /** Removing a character from a lower-case string leaves it lower-case. */
  lemma {:induction false} RemoveCharLower(s: string, c: char)
    requires IsLower(s)
    ensures IsLower(RemoveChar(s, c))
    decreases |s|
  {
    if s != [] {
      LowerSlice(s, 1, |s|);
      RemoveCharLower(s[1..], c);
    }
  }

  /** A first character other than `c` stays first. */
  lemma RemoveCharFirst(s: string, c: char)
    requires s != [] && s[0] != c
    ensures RemoveChar(s, c) != [] && RemoveChar(s, c)[0] == s[0]
  {
  }

  /** A last character other than `c` stays last. */
  lemma {:induction false} RemoveCharLast(s: string, c: char)
    requires s != [] && s[|s| - 1] != c
    ensures var r := RemoveChar(s, c); r != [] && r[|r| - 1] == s[|s| - 1]
    decreases |s|
  {
    if |s| > 1 {
      RemoveCharLast(s[1..], c);
    }
  }

  /** `s.strip().lower()` has no whitespace at either end. */
  lemma {:induction false} LowerStripEnds(s: string)
    ensures var t := Lower(Strip(s)); t == [] || (!IsSpace(t[0]) && !IsSpace(t[|t| - 1]))
  {
    var u := TrimLeft(s);
    TrimLeftShape(s);
    TrimRightShape(u);
    var v := Strip(s);
    LowerSpacing(v);
    if v != [] {
      assert v[0] == u[0];
    }
  }

  /** Python's `a < b` on strings: lexicographic order of code points. */
  predicate StrLess(a: string, b: string)
    decreases |a|
  {
    if a == [] then b != []
    else if b == [] then false
    else if a[0] != b[0] then a[0] < b[0]
    else StrLess(a[1..], b[1..])
  }

  /** Python's `max(a, b)` on strings: `a` unless `b` is strictly greater. */
  function MaxStr(a: string, b: string): string {
    if StrLess(a, b) then b else a
  }

  lemma {:induction false} StrLessIrreflexive(a: string)
    ensures !StrLess(a, a)
    decreases |a|
  {
    if a != [] {
      StrLessIrreflexive(a[1..]);
    }
  }

  /** String order is total: two different strings are ordered one way. */
  lemma {:induction false} StrLessTotal(a: string, b: string)
    ensures a == b || StrLess(a, b) || StrLess(b, a)
    decreases |a|
  {
    if a != [] && b != [] && a[0] == b[0] {
      StrLessTotal(a[1..], b[1..]);
      if a[1..] == b[1..] {
        assert a == [a[0]] + a[1..] && b == [b[0]] + b[1..];
      }
    }
  }

  lemma {:induction false} StrLessAsymmetric(a: string, b: string)
    ensures !(StrLess(a, b) && StrLess(b, a))
    decreases |a|
  {
    if a != [] && b != [] && a[0] == b[0] {
      StrLessAsymmetric(a[1..], b[1..]);
    }
  }

  lemma {:induction false} StrLessTransitive(a: string, b: string, c: string)
    requires StrLess(a, b) && StrLess(b, c)
    ensures StrLess(a, c)
    decreases |a|
  {
    if a != [] && a[0] == b[0] && b[0] == c[0] {
      StrLessTransitive(a[1..], b[1..], c[1..]);
    }
  }

  /** "Not less than" is transitive: the order `max` keeps. */
  lemma {:induction false} StrNotLessTransitive(a: string, b: string, c: string)
    requires !StrLess(a, b) && !StrLess(b, c)
    ensures !StrLess(a, c)
  {
    StrLessTotal(a, b);
    StrLessTotal(b, c);
    StrLessAsymmetric(a, c);
    if a != b && b != c {
      StrLessTransitive(c, b, a);
    }
  }
}
