/** Title clean-up helpers of the collection pass: moving a leading article to
    the end of a title and back, and shortening the name of an expansion or
    accessory that repeats the title of the game it belongs to. */
module Titles {
  import opened Outcome
  import opened Text

  /** The articles both helpers recognise, compared case-sensitively. */
  predicate IsArticle(w: string) {
    w == "A" || w == "An" || w == "The"
  }

  /** A title made of its words separated by single spaces: no leading,
      trailing or doubled space. */
  predicate SingleSpaced(s: string) {
    s == JoinWith(" ", Words(s))
  }

  /** `s` ends with ", " followed by the article `a`. */
  predicate EndsWithArticle(s: string, a: string) {
    IsArticle(a) && |s| >= |a| + 2 && s[|s| - |a| - 2..] == ", " + a
  }

  /** "The Castles of Burgundy" becomes "Castles of Burgundy, The". The words
      are re-joined with single spaces when an article moves. A title with
      characters but no words has no first word: the lookup fails. */
  function MoveArticleToEnd(orig: string): (r: Result<string>)
    ensures r.Failure? <==> orig != "" && AllSpace(orig)
    ensures r.Success? ==> (r.value == "" <==> orig == "")
    ensures r.Success? && orig != "" && !IsArticle(Words(orig)[0]) ==> r.value == orig
    ensures r.Success? && orig != "" && IsArticle(Words(orig)[0]) ==>
              && EndsWithArticle(r.value, Words(orig)[0])
              && r.value[..|r.value| - |Words(orig)[0]| - 2] == JoinWith(" ", Words(orig)[1..])
  {
    if orig == "" then Success(orig)
    else
      var title := Words(orig);
      if title == [] then Failure(NoWords(orig))
      else if IsArticle(title[0]) then
        var rest := JoinWith(" ", title[1..]);
        assert (rest + ", " + title[0])[|rest|..] == ", " + title[0];
        Success(rest + ", " + title[0])
      else Success(orig)
  }

  /** The article behind the final ", " of `s`, or "" when there is none. */
  function TrailingArticle(s: string): (a: string)
    ensures a != "" ==> EndsWithArticle(s, a)
    ensures a == "" ==> !EndsWithArticle(s, "A") && !EndsWithArticle(s, "An") && !EndsWithArticle(s, "The")
  {
    if EndsWithArticle(s, "A") then "A"
    else if EndsWithArticle(s, "An") then "An"
    else if EndsWithArticle(s, "The") then "The"
    else ""
  }

  /** A title ends with at most one article: the last letters differ. */
  lemma TrailingArticleUnique(s: string, a: string)
    requires EndsWithArticle(s, a)
    ensures TrailingArticle(s) == a
  {
    assert s[|s| - 1] == a[|a| - 1];
  }

  /** "Castles of Burgundy, The" becomes "The Castles of Burgundy": the piece
      after the last ", " moves to the front when it is an article. A title
      that is only an article gains a trailing space. */
  function MoveArticleToStart(orig: string): (r: string)
    ensures orig == "" ==> r == ""
    ensures IsArticle(orig) ==> r == orig + " "
    ensures var a := TrailingArticle(orig);
            a != "" ==> r == a + " " + orig[..|orig| - |a| - 2]
    ensures !IsArticle(orig) && TrailingArticle(orig) == "" ==> r == orig
  {
    if orig == "" then orig
    else
      StartMovedBare(orig);
      StartMovedTrailing(orig);
      StartMovedOther(orig);
      StartMoved(orig)
  }

  /** Lines 303-310 on a non-empty title: split on ", " and move the last
      piece to the front when it is an article. */
  function StartMoved(orig: string): string
    requires orig != ""
  {
    var title := SplitOn(orig, ", ");
    var last := LastPiece(orig);
    if IsArticle(last) then last + " " + JoinWith(", ", title[..|title| - 1]) else orig
  }

  /** A bare article gains a trailing space. */
  lemma StartMovedBare(orig: string)
    requires orig != ""
    ensures IsArticle(orig) ==> StartMoved(orig) == orig + " "
  {
    if IsArticle(orig) {
      BareArticleIsOnePiece(orig);
      var title := SplitOn(orig, ", ");
      assert title[..0] == [];
    }
  }

  /** A trailing article after ", " moves to the front. */
  lemma StartMovedTrailing(orig: string)
    requires orig != ""
    ensures var a := TrailingArticle(orig);
            a != "" ==> StartMoved(orig) == a + " " + orig[..|orig| - |a| - 2]
  {
    if TrailingArticle(orig) != "" {
      TrailingArticleIsLastPiece(orig);
    }
  }

  /** Any other title is unchanged. */
  lemma StartMovedOther(orig: string)
    requires orig != ""
    ensures !IsArticle(orig) && TrailingArticle(orig) == "" ==> StartMoved(orig) == orig
  {
    if !IsArticle(orig) && TrailingArticle(orig) == "" {
      LastPieceNotArticle(orig);
    }
  }

  /** The text after the last ", ". */
  function LastPiece(s: string): string {
    var title := SplitOn(s, ", ");
    title[|title| - 1]
  }

  /** Without a bare or trailing article, the last piece after ", " is no
      article. */
  lemma LastPieceNotArticle(s: string)
    requires !IsArticle(s) && TrailingArticle(s) == ""
    ensures !IsArticle(LastPiece(s))
  {
    NoTrailingArticle(s, LastPiece(s));
    LastArticlePieceIsSuffix(s);
  }

  /** When no article trails `s`, no particular article does. */
  lemma NoTrailingArticle(s: string, a: string)
    requires TrailingArticle(s) == ""
    ensures IsArticle(a) ==> !EndsWithArticle(s, a)
  {
  }

  lemma BareArticleIsOnePiece(s: string)
    requires IsArticle(s)
    ensures var title := SplitOn(s, ", "); |title| == 1 && title[0] == s
  {
    SplitOnWithoutSep(s, ", ");
  }

  lemma TrailingArticleIsLastPiece(s: string)
    requires TrailingArticle(s) != ""
    ensures var title := SplitOn(s, ", ");
            var a := TrailingArticle(s);
            title[|title| - 1] == a && JoinWith(", ", title[..|title| - 1]) == s[..|s| - |a| - 2]
  {
    ArticleSuffixIsLastPiece(s, TrailingArticle(s));
  }

  lemma LastArticlePieceTrails(s: string)
    ensures IsArticle(LastPiece(s)) ==> IsArticle(s) || TrailingArticle(s) == LastPiece(s)
  {
    var last := LastPiece(s);
    LastArticlePieceIsSuffix(s);
    if IsArticle(last) && !IsArticle(s) {
      TrailingArticleUnique(s, last);
    }
  }

  lemma ArticleSuffixIsLastPiece(s: string, a: string)
    requires EndsWithArticle(s, a)
    ensures var title := SplitOn(s, ", ");
            title[|title| - 1] == a && JoinWith(", ", title[..|title| - 1]) == s[..|s| - |a| - 2]
  {
    var x := s[..|s| - |a| - 2];
    assert s == x + ", " + a;
    SplitAtCommaSpaceConcat(x, a);
    SplitOnWithoutSep(a, ", ");
    var title := SplitOn(s, ", ");
    assert title == SplitOn(x, ", ") + [a];
    assert title[..|title| - 1] == SplitOn(x, ", ");
  }

  lemma LastArticlePieceIsSuffix(s: string)
    ensures IsArticle(LastPiece(s)) ==> IsArticle(s) || EndsWithArticle(s, LastPiece(s))
  {
    var title := SplitOn(s, ", ");
    var n := |title|;
    var last := title[n - 1];
    assert LastPiece(s) == last;
    SplitOnLast(s, ", ");
    if n == 1 {
      assert last == s;
    } else {
      SuffixAfterSep(JoinWith(", ", title[..n - 1]), last);
    }
  }

  lemma SuffixAfterSep(front: string, last: string)
    ensures var s := front + ", " + last;
            |s| >= |last| + 2 && s[|s| - |last| - 2..] == ", " + last
  {
    var s := front + ", " + last;
    assert s[|s| - |last| - 2..] == ", " + last;
  }

  /** Moving the article to the end and back restores a single-spaced title. */
  lemma ArticleRoundTrip(s: string)
    requires SingleSpaced(s) && |Words(s)| >= 2 && IsArticle(Words(s)[0])
    ensures MoveArticleToEnd(s).Success?
    ensures MoveArticleToStart(MoveArticleToEnd(s).value) == s
  {
    var ws := Words(s);
    var t := MoveArticleToEnd(s).value;
    var rest := JoinWith(" ", ws[1..]);
    assert t == rest + ", " + ws[0];
    TrailingArticleUnique(t, ws[0]);
    assert t[..|t| - |ws[0]| - 2] == rest;
  }

  /** Moving the article to the front and back restores a title whose words
      are single-spaced before the ", article" suffix. */
  lemma {:induction false} ArticleRoundTripBack(x: string, a: string)
    requires IsArticle(a) && SingleSpaced(x)
    ensures MoveArticleToEnd(MoveArticleToStart(x + ", " + a)) == Success(x + ", " + a)
  {
    ArticleBehind(x, a);
    ArticleInFront(x, a);
  }

  /** Moving an article that stands behind ", " to the front. */
  lemma {:induction false} ArticleBehind(x: string, a: string)
    requires IsArticle(a)
    ensures MoveArticleToStart(x + ", " + a) == a + " " + x
  {
    var s := x + ", " + a;
    assert s[|s| - |a| - 2..] == ", " + a && s[..|s| - |a| - 2] == x;
    TrailingArticleUnique(s, a);
  }

  /** Moving an article that stands in front of a single-spaced title. */
  lemma {:induction false} ArticleInFront(x: string, a: string)
    requires IsArticle(a) && SingleSpaced(x)
    ensures MoveArticleToEnd(a + " " + x) == Success(x + ", " + a)
  {
    var front := a + " " + x;
    assert a != [] && NoSpace(a);
    WordsAfterWord(a, x);
    var ws := Words(front);
    assert ws[0] == a && ws[1..] == Words(x);
    assert JoinWith(" ", ws[1..]) == x;
  }

  /** The loop over the owner's titles: the first title that begins `s`,
      ignoring case, is cut off and the search stops. */
  function StripOwnerTitle(s: string, titles: seq<string>): (r: string)
    ensures (forall k | 0 <= k < |titles| :: !HasPrefixIgnoringCase(s, titles[k])) ==> r == s
    ensures forall k | 0 <= k < |titles| && HasPrefixIgnoringCase(s, titles[k])
                       && (forall j | 0 <= j < k :: !HasPrefixIgnoringCase(s, titles[j])) ::
              r == s[|titles[k]|..]
    decreases |titles|
  {
    if titles == [] then s
    else if HasPrefixIgnoringCase(s, titles[0]) then s[|titles[0]|..]
    else
      var r := StripOwnerTitle(s, titles[1..]);
      StripOwnerTitleSkips(s, titles, r);
      r
  }

  /** A title that does not begin `s` leaves the first match among the
      others in charge. */
  lemma StripOwnerTitleSkips(s: string, titles: seq<string>, r: string)
    requires titles != [] && !HasPrefixIgnoringCase(s, titles[0])
    requires (forall k | 0 <= k < |titles[1..]| :: !HasPrefixIgnoringCase(s, titles[1..][k])) ==> r == s
    requires forall k | 0 <= k < |titles[1..]| && HasPrefixIgnoringCase(s, titles[1..][k])
                        && (forall j | 0 <= j < k :: !HasPrefixIgnoringCase(s, titles[1..][j])) ::
               r == s[|titles[1..][k]|..]
    ensures (forall k | 0 <= k < |titles| :: !HasPrefixIgnoringCase(s, titles[k])) ==> r == s
    ensures forall k | 0 <= k < |titles| && HasPrefixIgnoringCase(s, titles[k])
                       && (forall j | 0 <= j < k :: !HasPrefixIgnoringCase(s, titles[j])) ::
              r == s[|titles[k]|..]
  {
    assert forall k | 1 <= k < |titles| :: titles[k] == titles[1..][k - 1];
  }

  /** A pattern `\s*` + optional "(" (when `paren`) + `lit` (ignoring ASCII
      case) + `.*` up to the end of the line (when `toLineEnd`). The literal
      starts with a character that is neither space nor "(", so neither the
      space run nor the optional parenthesis ever has to give back characters. */
  datatype Pattern = Pattern(paren: bool, lit: string, toLineEnd: bool) {
    predicate Valid() {
      |lit| > 0 && !IsSpace(lit[0]) && lit[0] != '('
    }
  }

  /** `\s*\(?Fan expans.*` */
  const FanPattern := Pattern(true, "Fan expans", true)

  /** `\s*Map Collection: Volume ` */
  const MapPackPattern := Pattern(false, "Map Collection: Volume ", false)

  /** `lit` occurs at position `i` of `s`, ignoring ASCII case. */
  predicate LitAt(s: string, i: nat, lit: string) {
    i + |lit| <= |s| && Lower(s[i..i + |lit|]) == Lower(lit)
  }

  /** The first position at or after `i` that is not space. */
  function SkipSpace(s: string, i: nat): (w: nat)
    requires i <= |s|
    ensures i <= w <= |s|
    ensures forall j | i <= j < w :: IsSpace(s[j])
    ensures w == |s| || !IsSpace(s[w])
    decreases |s| - i
  {
    if i == |s| || !IsSpace(s[i]) then i else SkipSpace(s, i + 1)
  }

  /** The first line break at or after `i`, or the end of `s`. */
  function LineEnd(s: string, i: nat): (e: nat)
    requires i <= |s|
    ensures i <= e <= |s|
    ensures forall j | i <= j < e :: s[j] != '\n'
    ensures e == |s| || s[e] == '\n'
    decreases |s| - i
  {
    if i == |s| || s[i] == '\n' then i else LineEnd(s, i + 1)
  }

  /** Where a match of `p` that starts at `i` ends, if there is one. */
  function MatchAt(s: string, i: nat, p: Pattern): (e: Option<nat>)
    requires p.Valid() && i <= |s|
    ensures e.Some? ==> i < e.value <= |s|
  {
    var w := SkipSpace(s, i);
    var b :=
      if p.paren && w < |s| && s[w] == '(' && LitAt(s, w + 1, p.lit) then Some(w + 1)
      else if LitAt(s, w, p.lit) then Some(w)
      else None;
    match b
    case None => None
    case Some(b) => Some(if p.toLineEnd then LineEnd(s, b + |p.lit|) else b + |p.lit|)
  }

  /** The leftmost match of `p` starting at or after `i`, as (start, end). */
  function FindFrom(s: string, p: Pattern, i: nat): (r: Option<(nat, nat)>)
    requires p.Valid() && i <= |s|
    ensures r.Some? ==> i <= r.value.0 < r.value.1 <= |s| && MatchAt(s, r.value.0, p) == Some(r.value.1)
    ensures r.Some? ==> forall j | i <= j < r.value.0 :: MatchAt(s, j, p).None?
    ensures r.None? ==> forall j | i <= j <= |s| :: MatchAt(s, j, p).None?
    decreases |s| - i
  {
    match MatchAt(s, i, p)
    case Some(e) => Some((i, e))
    case None => if i == |s| then None else FindFrom(s, p, i + 1)
  }

  /** `re.sub(p, rep, s, flags=re.IGNORECASE)`: every leftmost match, scanning
      on from the end of the previous one, is replaced. */
  function SubAll(s: string, p: Pattern, rep: string): (r: string)
    requires p.Valid()
    ensures (forall j | 0 <= j <= |s| :: MatchAt(s, j, p).None?) ==> r == s
    decreases |s|
  {
    match FindFrom(s, p, 0)
    case None => s
    case Some((b, e)) => s[..b] + rep + SubAll(s[e..], p, rep)
  }

  /** `re.sub(r"^\W+", "", s)`: the leading run of non-word characters goes. */
  function StripLeadingNonWord(s: string): (r: string)
    ensures |r| <= |s| && r == s[|s| - |r|..]
    ensures r == [] || IsWordChar(r[0])
    ensures forall j | 0 <= j < |s| - |r| :: !IsWordChar(s[j])
    decreases |s|
  {
    if s == [] || IsWordChar(s[0]) then s else StripLeadingNonWord(s[1..])
  }

  /** " – " (en dash between spaces), the secondary title delimiter. */
  const DashDelimiter := " \U{2013} "

  /** The last two rewrites before the final article move: leading non-word
      characters go and " – " becomes ": ". What is left is empty or starts
      with a word character. */
  function Tidy(s: string): (r: string)
    ensures r == [] <==> StripLeadingNonWord(s) == []
    ensures r != [] ==> IsWordChar(r[0]) && !AllSpace(r)
  {
    var stripped := StripLeadingNonWord(s);
    if stripped == [] then ""
    else
      WordCharIsNotSpace(stripped[0]);
      ReplaceKeepsFirst(stripped, DashDelimiter, ": ");
      ReplaceAll(stripped, DashDelimiter, ": ")
  }

  /** The rewrites after the owner title is cut: fan expansions shortened to
      " [Fan]", map collections to "Map Pack ", leading non-word characters
      dropped, " – " turned into ": ", and a leading article moved to the end.
      The tidied text is empty or starts with a word character, so the
      article move cannot fail on it. */
  function CleanTail(cut: string): (r: string)
    ensures r == "" <==> Tidy(SubAll(SubAll(cut, FanPattern, " [Fan]"), MapPackPattern, "Map Pack ")) == ""
  {
    var fan := SubAll(cut, FanPattern, " [Fan]");
    var maps := SubAll(fan, MapPackPattern, "Map Pack ");
    MoveArticleToEnd(Tidy(maps)).value
  }

  /** The clean-up of an expansion's or accessory's name against the titles
      of the game it belongs to (the game's alternate names): put a trailing
      article back in front, cut the first owner title it begins with, apply
      the remaining rewrites, and fall back to the original name if nothing
      is left. It never raises. */
  function RemovePrefix(expansion: string, gameTitles: seq<string>): (r: Result<string>)
    ensures r.Success?
    ensures var tail := CleanTail(StripOwnerTitle(MoveArticleToStart(expansion), gameTitles));
            r.value == if tail == "" then expansion else tail
  {
    var start := MoveArticleToStart(expansion);
    var cut := StripOwnerTitle(start, gameTitles);
    var fan := SubAll(cut, FanPattern, " [Fan]");
    var maps := SubAll(fan, MapPackPattern, "Map Pack ");
    match MoveArticleToEnd(Tidy(maps))
    case Failure(e) => Failure(e)
    case Success(moved) => if |moved| == 0 then Success(expansion) else Success(moved)
  }

  /** A name that begins with the owner's first title, and has no trailing
      article to restore, loses that title: the result is the rest after the
      remaining rewrites, or the whole name when nothing is left. */
  lemma RemovePrefixCutsOwnerTitle(title: string, rest: string, others: seq<string>)
    requires !IsArticle(title + rest) && TrailingArticle(title + rest) == ""
    ensures var tail := CleanTail(rest);
            RemovePrefix(title + rest, [title] + others) == Success(if tail == "" then title + rest else tail)
  {
    var e := title + rest;
    assert e[..|title|] == title && e[|title|..] == rest;
    assert HasPrefixIgnoringCase(e, ([title] + others)[0]);
  }

  /** Nothing before the final article move can leave a text with characters
      but no words, so the clean-up never fails; it yields an empty name only
      for an empty name. */
  lemma RemovePrefixNeverFails(expansion: string, gameTitles: seq<string>)
    ensures RemovePrefix(expansion, gameTitles).Success?
    ensures RemovePrefix(expansion, gameTitles).value == "" <==> expansion == ""
  {
    if expansion == "" {
      var cut := StripOwnerTitle(MoveArticleToStart(expansion), gameTitles);
      StripOwnerTitleOfEmpty(gameTitles);
      SubAllOfEmpty(FanPattern, " [Fan]");
      SubAllOfEmpty(MapPackPattern, "Map Pack ");
      assert Tidy(SubAll(SubAll(cut, FanPattern, " [Fan]"), MapPackPattern, "Map Pack ")) == "";
    }
  }

  lemma {:induction false} StripOwnerTitleOfEmpty(titles: seq<string>)
    ensures StripOwnerTitle("", titles) == ""
    decreases |titles|
  {
    if titles != [] && !HasPrefixIgnoringCase("", titles[0]) {
      StripOwnerTitleOfEmpty(titles[1..]);
    }
  }

  lemma SubAllOfEmpty(p: Pattern, rep: string)
    requires p.Valid()
    ensures SubAll("", p, rep) == ""
  {
    assert MatchAt("", 0, p).None?;
  }
}
