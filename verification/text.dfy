/** String operations the Python code takes from `str`: whitespace `split()`,
    `split(sep)`, `sep.join`, `replace`, `lower`, `startswith` and `int()`.
    Strings are sequences of code points, as in Python 3. */
module Text {
  import opened Outcome

  /** Exactly the characters for which Python's `str.isspace()` holds; these are
      also what `str.split()` with no argument and the regex `\s` treat as space. */
  predicate IsSpace(c: char) {
    || ('\t' <= c <= '\r')
    || ('\U{1C}' <= c <= ' ')
    || c == '\U{85}' || c == '\U{A0}' || c == '\U{1680}'
    || ('\U{2000}' <= c <= '\U{200A}')
    || c == '\U{2028}' || c == '\U{2029}' || c == '\U{202F}' || c == '\U{205F}' || c == '\U{3000}'
  }

  predicate IsAsciiLetter(c: char) {
    ('A' <= c <= 'Z') || ('a' <= c <= 'z')
  }

  predicate IsDigit(c: char) {
    '0' <= c <= '9'
  }

  /** The regex class `\w`: ASCII letters, digits and `_`, and the non-ASCII
      characters from U+00C0 on that are neither space nor General Punctuation
      (U+2000-U+206F). Python consults the Unicode database instead. */
  predicate IsWordChar(c: char) {
    || IsAsciiLetter(c) || IsDigit(c) || c == '_'
    || (c >= '\U{C0}' && !IsSpace(c) && !('\U{2000}' <= c <= '\U{206F}'))
  }

  lemma WordCharIsNotSpace(c: char)
    ensures IsWordChar(c) ==> !IsSpace(c)
  {
  }

  predicate NoSpace(w: string) {
    forall j | 0 <= j < |w| :: !IsSpace(w[j])
  }

  predicate AllSpace(s: string) {
    forall j | 0 <= j < |s| :: IsSpace(s[j])
  }

  /** ASCII lower-casing of one character. */
  function LowerChar(c: char): char {
    if 'A' <= c <= 'Z' then (c as int + 32) as char else c
  }

  function Lower(s: string): (r: string)
    ensures |r| == |s|
    ensures forall j | 0 <= j < |s| :: r[j] == LowerChar(s[j])
  {
    seq(|s|, j requires 0 <= j < |s| => LowerChar(s[j]))
  }

  predicate HasPrefix(s: string, p: string) {
    |p| <= |s| && s[..|p|] == p
  }

  /** `s.lower().startswith(p.lower())` */
  predicate HasPrefixIgnoringCase(s: string, p: string) {
    |p| <= |s| && Lower(s[..|p|]) == Lower(p)
  }

  lemma PrefixIgnoringCaseOfLower(s: string, p: string)
    ensures HasPrefixIgnoringCase(s, p) <==> HasPrefix(Lower(s), Lower(p))
  {
    if |p| <= |s| {
      assert Lower(s)[..|p|] == Lower(s[..|p|]);
    }
  }

  /** The longest prefix of `s` holding no space. */
  function WordPrefix(s: string): (w: string)
    ensures |w| <= |s| && w == s[..|w|]
    ensures NoSpace(w)
    ensures |w| == |s| || IsSpace(s[|w|])
    ensures |s| > 0 && !IsSpace(s[0]) ==> |w| > 0
  {
    if s == [] || IsSpace(s[0]) then [] else [s[0]] + WordPrefix(s[1..])
  }

  /** `s.split()`: the maximal runs of non-space characters, in order. */
  function Words(s: string): (r: seq<string>)
    ensures forall i | 0 <= i < |r| :: r[i] != [] && NoSpace(r[i])
    ensures r == [] <==> AllSpace(s)
    decreases |s|
  {
    if s == [] then []
    else if IsSpace(s[0]) then
      var r := Words(s[1..]);
      assert AllSpace(s[1..]) ==> AllSpace(s) by {
        if AllSpace(s[1..]) {
          forall j | 0 <= j < |s| ensures IsSpace(s[j]) {
            if j > 0 { assert s[j] == s[1..][j - 1]; }
          }
        }
      }
      r
    else
      var w := WordPrefix(s);
      [w] + Words(s[|w|..])
  }

  /** `sep.join(parts)` */
  function JoinWith(sep: string, parts: seq<string>): string {
    if |parts| == 0 then ""
    else if |parts| == 1 then parts[0]
    else parts[0] + sep + JoinWith(sep, parts[1..])
  }

  /** `s.split(sep)` for a non-empty separator: cuts at every occurrence found
      scanning left to right; empty pieces are kept. */
  function SplitOn(s: string, sep: string): (r: seq<string>)
    requires |sep| > 0
    ensures |r| >= 1
    ensures JoinWith(sep, r) == s
    decreases |s|
  {
    if s == [] then [""]
    else if HasPrefix(s, sep) then
      var rest := SplitOn(s[|sep|..], sep);
      assert s == sep + s[|sep|..];
      [""] + rest
    else
      var rest := SplitOn(s[1..], sep);
      var r := [[s[0]] + rest[0]] + rest[1..];
      assert JoinWith(sep, r) == s by {
        if |rest| == 1 {
          assert r == [[s[0]] + s[1..]];
        } else {
          assert r[1..] == rest[1..];
          assert JoinWith(sep, rest) == rest[0] + sep + JoinWith(sep, rest[1..]);
          assert s == [s[0]] + s[1..];
        }
      }
      r
  }

  /** Joining one more part adds the separator and the part at the end. */
  lemma {:induction false} JoinWithSnoc(sep: string, p: seq<string>, x: string)
    requires |p| >= 1
    ensures JoinWith(sep, p + [x]) == JoinWith(sep, p) + sep + x
    decreases |p|
  {
    if |p| == 1 {
      assert p + [x] == [p[0], x];
      assert [p[0], x][1..] == [x];
    } else {
      assert (p + [x])[1..] == p[1..] + [x];
      JoinWithSnoc(sep, p[1..], x);
    }
  }

  /** The last piece of a split is the text after the last separator found,
      or the whole text when there is none. */
  lemma SplitOnLast(s: string, sep: string)
    requires |sep| > 0
    ensures var parts := SplitOn(s, sep);
            (|parts| == 1 ==> parts[0] == s)
            && (|parts| >= 2 ==> s == JoinWith(sep, parts[..|parts| - 1]) + sep + parts[|parts| - 1])
  {
    var parts := SplitOn(s, sep);
    var n := |parts|;
    if n >= 2 {
      assert parts == parts[..n - 1] + [parts[n - 1]];
      JoinWithSnoc(sep, parts[..n - 1], parts[n - 1]);
    }
  }

  /** A text in which the separator's first character never occurs is one piece. */
  lemma {:induction false} SplitOnWithoutSep(s: string, sep: string)
    requires |sep| > 0
    requires forall j | 0 <= j < |s| :: s[j] != sep[0]
    ensures SplitOn(s, sep) == [s]
    decreases |s|
  {
    if s != [] {
      assert !HasPrefix(s, sep) by { if |sep| <= |s| { assert s[..|sep|][0] == s[0]; } }
      SplitOnWithoutSep(s[1..], sep);
      assert [s[0]] + s[1..] == s;
    }
  }

  /** A word followed by a space and more text splits into that word and the
      words of the rest. */
  lemma {:induction false} WordsAfterWord(w: string, x: string)
    requires w != [] && NoSpace(w)
    ensures Words(w + " " + x) == [w] + Words(x)
  {
    var s := w + " " + x;
    WordPrefixOfWord(w, " " + x);
    assert s == w + (" " + x);
    assert s[|w|..] == " " + x;
    assert (" " + x)[1..] == x;
  }

  lemma {:induction false} WordPrefixOfWord(w: string, rest: string)
    requires NoSpace(w)
    requires |rest| > 0 && IsSpace(rest[0])
    ensures WordPrefix(w + rest) == w
    decreases |w|
  {
    if w == [] {
      assert (w + rest)[0] == rest[0];
    } else {
      assert (w + rest)[0] == w[0];
      assert (w + rest)[1..] == w[1..] + rest;
      WordPrefixOfWord(w[1..], rest);
    }
  }

  /** Splitting at ", " never finds an occurrence that straddles the
      junction `x + ", "`, so the pieces of `x` and of `a` are kept apart. */
  lemma {:induction false} SplitAtCommaSpaceConcat(x: string, a: string)
    ensures SplitOn(x + ", " + a, ", ") == SplitOn(x, ", ") + SplitOn(a, ", ")
    decreases |x|
  {
    var sep := ", ";
    var s := x + sep + a;
    if x == [] {
      assert s == sep + a;
      assert HasPrefix(s, sep);
      assert s[|sep|..] == a;
    } else if HasPrefix(x, sep) {
      assert HasPrefix(s, sep);
      assert s[|sep|..] == x[|sep|..] + sep + a;
      SplitAtCommaSpaceConcat(x[|sep|..], a);
    } else {
      SplitAtCommaSpaceConcat(x[1..], a);
      SplitAtCommaSpaceStep(x, a);
    }
  }

  /** The step of the above for a text that does not start with ", ". */
  lemma SplitAtCommaSpaceStep(x: string, a: string)
    requires x != [] && !HasPrefix(x, ", ")
    requires SplitOn(x[1..] + ", " + a, ", ") == SplitOn(x[1..], ", ") + SplitOn(a, ", ")
    ensures SplitOn(x + ", " + a, ", ") == SplitOn(x, ", ") + SplitOn(a, ", ")
  {
    var sep := ", ";
    var s := x + sep + a;
    NoSeparatorAtStart(x, a);
    SplitOnFirstChar(s, sep);
    SplitOnFirstChar(x, sep);
    JoinFirstPiece(x[0], SplitOn(x[1..], sep), SplitOn(a, sep));
  }

  lemma NoSeparatorAtStart(x: string, a: string)
    requires x != [] && !HasPrefix(x, ", ")
    ensures !HasPrefix(x + ", " + a, ", ")
    ensures (x + ", " + a)[0] == x[0] && (x + ", " + a)[1..] == x[1..] + ", " + a
  {
    var s := x + ", " + a;
    if |x| == 1 {
      assert s[1] == ',';
    } else {
      assert s[..2] == x[..2];
    }
  }

  /** Splitting a text that does not start with the separator puts its first
      character at the head of the first piece. */
  lemma SplitOnFirstChar(s: string, sep: string)
    requires |sep| > 0 && s != [] && !HasPrefix(s, sep)
    ensures SplitOn(s, sep) == [[s[0]] + SplitOn(s[1..], sep)[0]] + SplitOn(s[1..], sep)[1..]
  {
  }

  lemma JoinFirstPiece<T>(c: T, rx: seq<seq<T>>, ra: seq<seq<T>>)
    requires |rx| >= 1
    ensures [[c] + (rx + ra)[0]] + (rx + ra)[1..] == [[c] + rx[0]] + rx[1..] + ra
  {
    assert (rx + ra)[1..] == rx[1..] + ra;
  }

  /** `s.replace(pat, rep)`: every occurrence found scanning left to right,
      without overlap, is replaced. */
  function ReplaceAll(s: string, pat: string, rep: string): string
    requires |pat| > 0
    decreases |s|
  {
    if s == [] then ""
    else if HasPrefix(s, pat) then rep + ReplaceAll(s[|pat|..], pat, rep)
    else [s[0]] + ReplaceAll(s[1..], pat, rep)
  }

  /** Removing every occurrence of a one-character pattern leaves none, and
      keeps every other character in order. */
  lemma {:induction false} ReplaceCharByNothing(s: string, c: char)
    ensures var r := ReplaceAll(s, [c], "");
            (forall j | 0 <= j < |r| :: r[j] != c) && multiset(r) <= multiset(s)
    decreases |s|
  {
    if s != [] {
      ReplaceCharByNothing(s[1..], c);
      assert s == [s[0]] + s[1..];
      if HasPrefix(s, [c]) {
        assert s[|[c]|..] == s[1..];
      }
    }
  }

  /** Replacing a one-character pattern by one character replaces it at
      every position and keeps every other character. */
  lemma {:induction false} ReplaceCharByChar(s: string, c: char, d: char)
    ensures var r := ReplaceAll(s, [c], [d]);
            |r| == |s| && forall j | 0 <= j < |s| :: r[j] == if s[j] == c then d else s[j]
    decreases |s|
  {
    if s != [] {
      ReplaceCharByChar(s[1..], c, d);
      var r := ReplaceAll(s, [c], [d]);
      var rest := ReplaceAll(s[1..], [c], [d]);
      if HasPrefix(s, [c]) {
        assert s[|[c]|..] == s[1..];
        assert r == [d] + rest;
      } else {
        assert r == [s[0]] + rest;
      }
      forall j | 0 <= j < |s| ensures r[j] == if s[j] == c then d else s[j] {
        if j > 0 {
          assert r[j] == rest[j - 1] && s[j] == s[1..][j - 1];
        }
      }
    }
  }

  /** A pattern that begins with another character than `s` leaves `s[0]` in place. */
  lemma ReplaceKeepsFirst(s: string, pat: string, rep: string)
    requires |pat| > 0 && |s| > 0 && s[0] != pat[0]
    ensures |ReplaceAll(s, pat, rep)| > 0 && ReplaceAll(s, pat, rep)[0] == s[0]
  {
    assert !HasPrefix(s, pat);
  }

  predicate AllDigits(s: string) {
    forall j | 0 <= j < |s| :: IsDigit(s[j])
  }

  /** The value of a string of decimal digits, most significant first. */
  function DigitsValue(s: string): nat
    requires AllDigits(s)
  {
    if s == [] then 0 else DigitsValue(s[..|s| - 1]) * 10 + (s[|s| - 1] as int - '0' as int)
  }

  /** `s.strip()` */
  function Strip(s: string): (r: string)
    ensures |r| <= |s|
    decreases |s|
  {
    if s == [] then s
    else if IsSpace(s[0]) then Strip(s[1..])
    else if IsSpace(s[|s| - 1]) then Strip(s[..|s| - 1])
    else s
  }

  /** `int(s)` for a string: surrounding space is ignored, then an optional
      sign and one or more ASCII digits. `None` stands for the ValueError.
      Underscores between digits and non-ASCII digits, which Python also
      accepts, are not modelled. */
  function ParseInt(s: string): Option<int> {
    var t := Strip(s);
    if |t| > 1 && (t[0] == '-' || t[0] == '+') && AllDigits(t[1..]) then
      var v: int := DigitsValue(t[1..]);
      Some(if t[0] == '-' then -v else v)
    else if |t| > 0 && AllDigits(t) then Some(DigitsValue(t))
    else None
  }

  /** Decimal digits of a natural number, as `str(n)` writes them. */
  function ShowNat(n: nat): (r: string)
    ensures |r| > 0 && AllDigits(r)
  {
    if n < 10 then [('0' as int + n) as char] else ShowNat(n / 10) + [('0' as int + n % 10) as char]
  }

  /** `int(str(n)) == n` for every natural number. */
  lemma {:induction false} ParseShowNat(n: nat)
    ensures DigitsValue(ShowNat(n)) == n
    ensures ParseInt(ShowNat(n)) == Some(n)
  {
    var s := ShowNat(n);
    if n >= 10 {
      ParseShowNat(n / 10);
      assert s[..|s| - 1] == ShowNat(n / 10);
    }
    assert !IsSpace(s[0]) && !IsSpace(s[|s| - 1]);
    assert Strip(s) == s;
  }
}
