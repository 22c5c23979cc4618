/** What pattern strings mean, said without the items they are made of: the clauses of the matcher on the
    strings themselves, and the whole meaning of plain words, anchored or not. */
module GrepPatterns {
  import opened GrepMatch

  /** The pattern matches at the beginning of the text. */
  ghost predicate Here(re: string, text: string) {
    MatchesHere(Parse(re), text)
  }

  // ---- The clauses ----

  /** The empty pattern matches everywhere, and "$" at the end only. */
  lemma EmptyAndEnd(text: string)
    ensures Here("", text)
    ensures Here("$", text) <==> text == ""
  {
    HereEmpty(text);
    assert Parse("") == Pattern([], false) && Parse("$") == Pattern([], true);
  }

  /** A character that '*' follows, be it '$' or '^', stands for any number of itself; '.' for any text. */
  lemma Starred(c: char, re: string, text: string)
    ensures Here([c] + "*" + re, text) <==>
              exists k :: 0 <= k <= |text| && (forall i :: 0 <= i < k ==> c == '.' || text[i] == c) && Here(re, text[k..])
  {
    var all := [c] + "*" + re;
    assert all[2..] == re && all[0] == c && all[1] == '*';
    HereMany(c, Parse(re), text);
    if k :| StarHere(c, Parse(re), text, k) {
      assert 0 <= k <= |text| && Here(re, text[k..]);
    }
    if k :| 0 <= k <= |text| && (forall i :: 0 <= i < k ==> c == '.' || text[i] == c) && Here(re, text[k..]) {
      assert StarHere(c, Parse(re), text, k);
    }
  }

  /** Any other character but a final '$' stands for itself, and '.' for any one character. */
  lemma Single(c: char, re: string, text: string)
    requires (re == "" || re[0] != '*') && !(c == '$' && re == "")
    ensures Here([c] + re, text) <==> text != "" && (c == '.' || text[0] == c) && Here(re, text[1..])
  {
    var all := [c] + re;
    assert all[1..] == re && all[0] == c && (re != "" ==> all[1] == re[0]);
    assert |all| == 1 ==> re == "";
    HereOne(c, Parse(re), text);
  }

  /** A pattern that begins with '^' matches at the beginning of the text only, any other one anywhere. */
  lemma Anchored(re: string, text: string)
    ensures Matches("^" + re, text) <==> Here(re, text)
    ensures re == "" || re[0] != '^' ==> (Matches(re, text) <==> exists i :: 0 <= i <= |text| && Here(re, text[i..]))
  {
    assert ("^" + re)[1..] == re;
    MatchesAtStart("^" + re, text);
    if re == "" || re[0] != '^' {
      MatchesSomewhere(re, text);
      if i :| MatchesFrom(re, text, i) {
        assert 0 <= i <= |text| && Here(re, text[i..]);
      }
      if i :| 0 <= i <= |text| && Here(re, text[i..]) {
        assert MatchesFrom(re, text, i);
      }
    }
  }

  // ---- Words ----

  predicate Plain(w: string) {
    forall i :: 0 <= i < |w| ==> w[i] != '.' && w[i] != '*' && w[i] != '^' && w[i] != '$'
  }

  /** A plain word in front of a pattern that does not begin with '*' stands for itself. */
  lemma {:induction false} WordHere(w: string, re: string, text: string)
    requires Plain(w) && (re == "" || re[0] != '*')
    ensures Here(w + re, text) <==> w <= text && Here(re, text[|w|..])
  {
    hide Here;
    if w == "" {
      assert w + re == re && text[0..] == text;
    } else {
      assert w + re == [w[0]] + (w[1..] + re);
      Single(w[0], w[1..] + re, text);
      if text != "" && text[0] == w[0] {
        WordHere(w[1..], re, text[1..]);
        assert w <= text <==> w[1..] <= text[1..];
        assert w <= text ==> text[1..][|w| - 1..] == text[|w|..];
      }
    }
  }

  /** A plain word matches the texts it occurs in. */
  lemma WordOccurs(w: string, text: string)
    requires Plain(w)
    ensures Matches(w, text) <==> exists i :: 0 <= i <= |text| && w <= text[i..]
  {
    hide Here, Matches;
    Anchored(w, text);
    forall i | 0 <= i <= |text| ensures Here(w, text[i..]) <==> w <= text[i..] {
      WordHere(w, "", text[i..]);
      assert w + "" == w;
      EmptyAndEnd(text[i..][if |w| <= |text| - i then |w| else 0..]);
    }
    if i :| 0 <= i <= |text| && w <= text[i..] {
      assert Here(w, text[i..]);
    }
  }

  /** With '^' in front, the texts that begin with it; with '$' behind, those that end with it; with both, the
      word itself alone. */
  lemma WordAnchored(w: string, text: string)
    requires Plain(w)
    ensures Matches("^" + w, text) <==> w <= text
    ensures Matches(w + "$", text) <==> |w| <= |text| && text[|text| - |w|..] == w
    ensures Matches("^" + w + "$", text) <==> text == w
  {
    hide Here, Matches;
    WordThenEnd(w, text);
    WordHere(w, "", text);
    assert w + "" == w;
    if |w| <= |text| { EmptyAndEnd(text[|w|..]); }
    Anchored(w, text);
    Anchored(w + "$", text);
    assert "^" + w + "$" == "^" + (w + "$");
    forall i | 0 <= i <= |text| ensures Here(w + "$", text[i..]) <==> text[i..] == w {
      WordThenEnd(w, text[i..]);
    }
    if i :| 0 <= i <= |text| && Here(w + "$", text[i..]) {
      assert i == |text| - |w|;
    }
    if |w| <= |text| && text[|text| - |w|..] == w {
      assert Here(w + "$", text[|text| - |w|..]);
    }
  }

  lemma WordThenEnd(w: string, text: string)
    requires Plain(w)
    ensures Here(w + "$", text) <==> text == w
  {
    hide Here;
    WordHere(w, "$", text);
    if w <= text {
      EmptyAndEnd(text[|w|..]);
    }
  }

  /** '*' binds before '$': "^c*$" matches the texts made of `c` alone, also when `c` is '$'. */
  lemma StarThenEnd(c: char, text: string)
    ensures Matches("^" + ([c] + "*" + "$"), text) <==> c == '.' || forall i :: 0 <= i < |text| ==> text[i] == c
  {
    hide Here, Matches;
    Anchored([c] + "*" + "$", text);
    Starred(c, "$", text);
    forall k | 0 <= k <= |text| ensures Here("$", text[k..]) <==> k == |text| {
      EmptyAndEnd(text[k..]);
    }
    if c == '.' || forall i :: 0 <= i < |text| ==> text[i] == c {
      assert Here("$", text[|text|..]);
    }
  }
}
