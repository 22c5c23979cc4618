/** The pattern matcher of grep: literals, '.', '*', a leading '^' and a trailing '$'. C strings are
    sequences; their end stands for the terminating zero. */
module GrepMatch {

  // ---- What a pattern means ----

  /** One character, or any number of one character; the character '.' stands for all of them. */
  datatype Item = One(c: char) | Many(c: char)

  /** The items of a pattern, and whether it ends with '$'. */
  datatype Pattern = Pattern(items: seq<Item>, atEnd: bool)

  function Parse(re: string): Pattern {
    if re == "" then Pattern([], false)
    else if |re| > 1 && re[1] == '*' then Then(Many(re[0]), Parse(re[2..]))
    else if re == "$" then Pattern([], true)
    else Then(One(re[0]), Parse(re[1..]))
  }

  function Then(item: Item, p: Pattern): Pattern {
    Pattern([item] + p.items, p.atEnd)
  }

  predicate Accepts(c: char, x: char) {
    c == '.' || c == x
  }

  predicate PieceOk(item: Item, piece: string) {
    match item
    case One(c) => |piece| == 1 && Accepts(c, piece[0])
    case Many(c) => forall i :: 0 <= i < |piece| ==> Accepts(c, piece[i])
  }

  function Concat(pieces: seq<string>): string {
    if pieces == [] then "" else pieces[0] + Concat(pieces[1..])
  }

  ghost predicate Fits(items: seq<Item>, pieces: seq<string>) {
    |pieces| == |items| && forall i :: 0 <= i < |items| ==> PieceOk(items[i], pieces[i])
  }

  /** A word is in the language of the items if it falls into pieces, one for each item. */
  ghost predicate InLanguage(items: seq<Item>, w: string) {
    exists pieces :: Fits(items, pieces) && Concat(pieces) == w
  }

  /** The first `k` characters of the text match. */
  ghost predicate PrefixMatches(p: Pattern, text: string, k: int) {
    0 <= k <= |text| && (p.atEnd ==> k == |text|) && InLanguage(p.items, text[..k])
  }

  ghost predicate MatchesHere(p: Pattern, text: string) {
    exists k :: PrefixMatches(p, text, k)
  }

  /** `text[i..j]` matches, anchored as the pattern says. */
  ghost predicate MatchesAt(re: string, text: string, i: int, j: int) {
    && 0 <= i <= j <= |text| && (re != "" && re[0] == '^' ==> i == 0)
    && PrefixMatches(Parse(if re != "" && re[0] == '^' then re[1..] else re), text[i..], j - i)
  }

  ghost predicate Matches(re: string, text: string) {
    exists i, j :: MatchesAt(re, text, i, j)
  }

  // ---- The language, item by item ----

  lemma NoItems(w: string)
    ensures InLanguage([], w) <==> w == ""
  {
    if w == "" {
      assert Fits([], []) && Concat([]) == w;
    }
  }

  lemma FirstOne(c: char, items: seq<Item>, w: string)
    ensures InLanguage([One(c)] + items, w) <==> w != "" && Accepts(c, w[0]) && InLanguage(items, w[1..])
  {
    if InLanguage([One(c)] + items, w) {
      var pieces :| Fits([One(c)] + items, pieces) && Concat(pieces) == w;
      assert PieceOk(([One(c)] + items)[0], pieces[0]);
      RestFits([One(c)] + items, pieces);
      assert Concat(pieces[1..]) == w[1..];
    }
    if w != "" && Accepts(c, w[0]) && InLanguage(items, w[1..]) {
      var pieces :| Fits(items, pieces) && Concat(pieces) == w[1..];
      var all := [[w[0]]] + pieces;
      assert all[1..] == pieces && Concat(all) == w;
      assert Fits([One(c)] + items, all);
    }
  }

  /** The word begins with `k` characters that '*' takes, and goes on in the language. */
  ghost predicate StarSplit(c: char, items: seq<Item>, w: string, k: int) {
    0 <= k <= |w| && (forall i :: 0 <= i < k ==> Accepts(c, w[i])) && InLanguage(items, w[k..])
  }

  lemma FirstMany(c: char, items: seq<Item>, w: string)
    ensures InLanguage([Many(c)] + items, w) <==> exists k :: StarSplit(c, items, w, k)
  {
    if InLanguage([Many(c)] + items, w) {
      var pieces :| Fits([Many(c)] + items, pieces) && Concat(pieces) == w;
      assert PieceOk(([Many(c)] + items)[0], pieces[0]);
      RestFits([Many(c)] + items, pieces);
      var k := |pieces[0]|;
      assert w[..k] == pieces[0] && Concat(pieces[1..]) == w[k..];
      assert StarSplit(c, items, w, k);
    }
    if k :| StarSplit(c, items, w, k) {
      var pieces :| Fits(items, pieces) && Concat(pieces) == w[k..];
      var all := [w[..k]] + pieces;
      assert all[1..] == pieces && Concat(all) == w;
      assert Fits([Many(c)] + items, all);
    }
  }

  lemma RestFits(items: seq<Item>, pieces: seq<string>)
    requires items != [] && Fits(items, pieces)
    ensures pieces != [] && Fits(items[1..], pieces[1..])
  {
    forall i | 0 <= i < |items| - 1 ensures PieceOk(items[1..][i], pieces[1..][i]) {
      assert PieceOk(items[i + 1], pieces[i + 1]);
    }
  }

  // ---- Matching at the beginning of the text ----

  lemma HereEmpty(text: string)
    ensures MatchesHere(Pattern([], false), text)
    ensures MatchesHere(Pattern([], true), text) <==> text == ""
  {
    NoItems(text[..0]);
    assert PrefixMatches(Pattern([], false), text, 0);
    if text == "" {
      assert PrefixMatches(Pattern([], true), text, 0);
    }
    if k :| PrefixMatches(Pattern([], true), text, k) {
      NoItems(text[..k]);
    }
  }

  lemma HereOne(c: char, p: Pattern, text: string)
    ensures MatchesHere(Then(One(c), p), text) <==> text != "" && Accepts(c, text[0]) && MatchesHere(p, text[1..])
  {
    if k :| PrefixMatches(Then(One(c), p), text, k) {
      FirstOne(c, p.items, text[..k]);
      assert text[..k][1..] == text[1..][..k - 1];
      assert PrefixMatches(p, text[1..], k - 1);
    }
    if text != "" && Accepts(c, text[0]) && MatchesHere(p, text[1..]) {
      var k :| PrefixMatches(p, text[1..], k);
      assert text[..k + 1][1..] == text[1..][..k];
      FirstOne(c, p.items, text[..k + 1]);
      assert PrefixMatches(Then(One(c), p), text, k + 1);
    }
  }

  /** '*' may take the first `k` characters of the text, and the rest matches. */
  ghost predicate StarHere(c: char, p: Pattern, text: string, k: int) {
    0 <= k <= |text| && (forall i :: 0 <= i < k ==> Accepts(c, text[i])) && MatchesHere(p, text[k..])
  }

  lemma HereMany(c: char, p: Pattern, text: string)
    ensures MatchesHere(Then(Many(c), p), text) <==> exists k :: StarHere(c, p, text, k)
  {
    if n :| PrefixMatches(Then(Many(c), p), text, n) {
      FirstMany(c, p.items, text[..n]);
      var k :| StarSplit(c, p.items, text[..n], k);
      assert text[..n][k..] == text[k..][..n - k];
      assert PrefixMatches(p, text[k..], n - k);
      forall i | 0 <= i < k ensures Accepts(c, text[i]) {
        assert text[i] == text[..n][i];
      }
      assert StarHere(c, p, text, k);
    }
    if k :| StarHere(c, p, text, k) {
      var n :| PrefixMatches(p, text[k..], n);
      assert text[..k + n][k..] == text[k..][..n];
      assert StarSplit(c, p.items, text[..k + n], k);
      FirstMany(c, p.items, text[..k + n]);
      assert PrefixMatches(Then(Many(c), p), text, k + n);
    }
  }

  // ---- The matcher ----

  /** Does the pattern match at the beginning of the text? */
  method MatchHere(re: string, text: string) returns (r: bool)
    ensures r <==> MatchesHere(Parse(re), text)
    decreases |re|, 0
  {
    hide MatchesHere;
    if re == "" {
      HereEmpty(text);
      return true;
    }
    if |re| > 1 && re[1] == '*' {
      HereMany(re[0], Parse(re[2..]), text);
      assert Parse(re) == Then(Many(re[0]), Parse(re[2..]));
      r := MatchStar(re[0], re[2..], text);
      return;
    }
    if re[0] == '$' && |re| == 1 {
      assert re == "$";
      HereEmpty(text);
      return text == "";
    }
    HereOne(re[0], Parse(re[1..]), text);
    if text != "" && (re[0] == '.' || re[0] == text[0]) {
      r := MatchHere(re[1..], text[1..]);
      return;
    }
    return false;
  }

  /** Does `c*` followed by the pattern match at the beginning of the text? */
  method MatchStar(c: char, re: string, text: string) returns (r: bool)
    ensures r <==> exists k :: StarHere(c, Parse(re), text, k)
    decreases |re|, 1
  {
    hide MatchesHere;
    var t := 0;
    while true
      invariant 0 <= t <= |text| && forall i :: 0 <= i < t ==> Accepts(c, text[i])
      invariant forall k :: 0 <= k < t ==> !StarHere(c, Parse(re), text, k)
      decreases |text| - t
    {
      var here := MatchHere(re, text[t..]);
      if here {
        assert StarHere(c, Parse(re), text, t);
        return true;
      }
      if !(t < |text| && (text[t] == c || c == '.')) {
        break;
      }
      t := t + 1;
    }
    return false;
  }

  ghost predicate MatchesFrom(re: string, text: string, t: int) {
    0 <= t <= |text| && MatchesHere(Parse(re), text[t..])
  }

  lemma MatchesSomewhere(re: string, text: string)
    requires re == "" || re[0] != '^'
    ensures Matches(re, text) <==> exists t :: MatchesFrom(re, text, t)
  {
    if i, j :| MatchesAt(re, text, i, j) {
      assert MatchesFrom(re, text, i);
    }
    if t :| MatchesFrom(re, text, t) {
      var k :| PrefixMatches(Parse(re), text[t..], k);
      assert MatchesAt(re, text, t, t + k);
    }
  }

  lemma MatchesAtStart(re: string, text: string)
    requires re != "" && re[0] == '^'
    ensures Matches(re, text) <==> MatchesHere(Parse(re[1..]), text)
  {
    assert text[0..] == text;
    if i, j :| MatchesAt(re, text, i, j) {
      assert PrefixMatches(Parse(re[1..]), text, j);
    }
    if k :| PrefixMatches(Parse(re[1..]), text, k) {
      assert MatchesAt(re, text, 0, k);
    }
  }

  /** Does the pattern match anywhere in the text, or at its beginning after '^'? */
  method Match(re: string, text: string) returns (r: bool)
    ensures r <==> Matches(re, text)
  {
    hide Matches, MatchesHere;
    if re != "" && re[0] == '^' {
      MatchesAtStart(re, text);
      r := MatchHere(re[1..], text);
      return;
    }
    MatchesSomewhere(re, text);
    var t := 0;
    while true
      invariant 0 <= t <= |text| && forall i :: 0 <= i < t ==> !MatchesFrom(re, text, i)
      decreases |text| - t
    {
      r := MatchHere(re, text[t..]);
      if r {
        assert MatchesFrom(re, text, t);
        return;
      }
      if t == |text| {
        break;
      }
      t := t + 1;
    }
  }
}
