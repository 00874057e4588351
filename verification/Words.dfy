/** `str.split()`: the whitespace-separated words of a text. */
module Words {
  import opened Sequences
  import opened Text

  /** The length of the leading run of non-space characters. */
  function WordLength(s: string): (n: nat)
    ensures n <= |s|
    ensures forall i :: 0 <= i < n ==> !IsSpace(s[i])
    ensures n < |s| ==> IsSpace(s[n])
    ensures s != "" && !IsSpace(s[0]) ==> n > 0
  {
    if s == "" || IsSpace(s[0]) then 0 else 1 + WordLength(s[1..])
  }

  function Split(s: string): seq<string>
    decreases |s|
  {
    var t := LStrip(s);
    if t == "" then []
    else
      var n := WordLength(t);
      [t[..n]] + Split(t[n..])
  }

  predicate AllWords(ws: seq<string>) {
    forall w :: w in ws ==> Word(w)
  }

  lemma {:induction false} SplitGivesWords(s: string)
    ensures AllWords(Split(s))
    decreases |s|
  {
    var t := LStrip(s);
    if t != "" { SplitGivesWords(t[WordLength(t)..]); }
  }

  lemma SpaceInFront(s: string)
    requires s != "" && IsSpace(s[0])
    ensures Split(s) == Split(s[1..])
  {
    assert LStrip(s) == LStrip(s[1..]);
  }

  /** A word and a space in front of a text add that word. */
  lemma WordInFront(w: string, rest: string)
    requires Word(w) && (rest == "" || IsSpace(rest[0]))
    ensures Split(w + rest) == [w] + Split(rest)
  {
    var s := w + rest;
    assert s[0] == w[0] && Margin(s) == 0 && s[0..] == s;
    assert forall i :: 0 <= i < |w| ==> s[i] == w[i];
    assert rest != "" ==> s[|w|] == rest[0];
    assert WordLength(s) == |w|;
    assert s[..|w|] == w && s[|w|..] == rest;
  }

  lemma BlankFirst(rest: string)
    ensures Split(" " + rest) == Split(rest) && IsSpace((" " + rest)[0])
  {
    SpaceInFront(" " + rest);
    assert (" " + rest)[1..] == rest;
  }

  /** Joining words with single spaces and splitting again gives the words back. */
  lemma {:induction false} SplitOfJoin(ws: seq<string>)
    requires AllWords(ws)
    ensures Split(Join(" ", ws)) == ws
  {
    if ws != [] {
      hide IsSpace, Split;
      HeadTail(ws);
      if |ws| == 1 {
        EmptyText();
        WordInFront(ws[0], "");
        assert ws[0] + "" == ws[0];
      } else {
        var rest := Join(" ", ws[1..]);
        SplitOfJoin(ws[1..]);
        assert ws[0] + " " + rest == ws[0] + (" " + rest);
        BlankFirst(rest);
        WordInFront(ws[0], " " + rest);
      }
    }
  }

  lemma EmptyText()
    ensures Split("") == []
  {
  }

  /** Trailing spaces carry no word. */
  lemma {:induction false} TrailingSpaces(s: string, k: nat)
    requires k <= |s| && forall i :: k <= i < |s| ==> IsSpace(s[i])
    ensures Split(s[..k]) == Split(s)
    decreases |s|
  {
    hide IsSpace, Split, WordLength;
    DropTake(s, k, k);
    if k < |s| {
      if k == 0 {
        LeadingSpaces(s, |s|);
        assert s[..0] == s[|s|..];
      } else if IsSpace(s[0]) {
        SpaceInFront(s);
        SpaceInFront(s[..k]);
        DropTake(s, 1, k);
        TrailingSpaces(s[1..], k - 1);
      } else {
        var n := WordLength(s);
        assert IsSpace(s[k]);
        WordFirst(s, |s|);
        WordFirst(s, k);
        DropTake(s, n, k);
        TrailingSpaces(s[n..], k - n);
      }
    }
  }

  lemma WordFirst(s: string, k: nat)
    requires s != "" && !IsSpace(s[0]) && WordLength(s) <= k <= |s|
    ensures Split(s[..k]) == [s[..WordLength(s)]] + Split(s[WordLength(s)..k])
  {
    hide IsSpace, Split, WordLength;
    var n := WordLength(s);
    TakeTwo(s, n, k);
    assert n < k ==> s[n..k][0] == s[n];
    WordInFront(s[..n], s[n..k]);
  }

  lemma SplitOfStrip(s: string)
    ensures Split(Strip(s)) == Split(s)
  {
    var t := LStrip(s);
    TrailingSpaces(t, Extent(t));
    LeadingSpaces(s, Margin(s));
  }

  lemma {:induction false} LeadingSpaces(s: string, k: nat)
    requires k <= |s| && forall i :: 0 <= i < k ==> IsSpace(s[i])
    ensures Split(s[k..]) == Split(s)
  {
    if k > 0 {
      SpaceInFront(s);
      LeadingSpaces(s[1..], k - 1);
      assert s[1..][k - 1..] == s[k..];
    } else {
      assert s[0..] == s;
    }
  }

  /** Two texts that meet at a space split separately. */
  lemma {:induction false} SplitAppend(a: string, b: string)
    requires a == "" || b == "" || IsSpace(b[0])
    ensures Split(a + b) == Split(a) + Split(b)
    decreases |a|
  {
    hide IsSpace, Split, WordLength;
    if a == "" {
      EmptyText();
      EmptyAppend(b);
      EmptyAppend(Split(b));
    } else {
      ConsAppend(a, b);
      if IsSpace(a[0]) {
        SpaceInFront(a);
        SpaceInFront(a + b);
        SplitAppend(a[1..], b);
        assert (a + b)[1..] == a[1..] + b;
      } else {
        var n := WordLength(a);
        var w, rest := a[..n], a[n..];
        assert w != "" && w[0] == a[0];
        assert a == w + rest && a + b == w + (rest + b);
        SplitAppend(rest, b);
        assert rest + b == "" || IsSpace((rest + b)[0]);
        WordInFront(w, rest);
        WordInFront(w, rest + b);
        assert [w] + (Split(rest) + Split(b)) == ([w] + Split(rest)) + Split(b);
      }
    }
  }

  /** Words joined with single spaces, from a word character on, are words joined with single spaces. */
  lemma {:induction false} JoinSuffix(ws: seq<string>, a: nat)
    requires AllWords(ws) && a < |Join(" ", ws)| && !IsSpace(Join(" ", ws)[a])
    ensures Join(" ", Split(Join(" ", ws)[a..])) == Join(" ", ws)[a..]
  {
    hide IsSpace, Split;
    var w := ws[0];
    assert w in ws && Word(w);
    if |ws| == 1 {
      LoneWord(w[a..]);
    } else {
      var rest := Join(" ", ws[1..]);
      var s := w + " " + rest;
      SpaceIsSpace();
      if a < |w| {
        assert s[a..] == w[a..] + (" " + rest);
        BlankFirst(rest);
        SplitOfJoin(ws[1..]);
        WordInFront(w[a..], " " + rest);
        JoinCons(w[a..], ws[1..]);
      } else {
        assert s[a] == (if a == |w| then ' ' else rest[a - |w| - 1]);
        assert s[a..] == rest[a - |w| - 1..];
        JoinSuffix(ws[1..], a - |w| - 1);
      }
    }
  }

  lemma SpaceIsSpace()
    ensures IsSpace(' ')
  {
  }

  lemma LoneWord(w: string)
    requires Word(w)
    ensures Split(w) == [w] && Join(" ", [w]) == w
  {
    hide IsSpace, Split;
    EmptyText();
    WordInFront(w, "");
    assert w + "" == w;
  }

  lemma JoinCons(w: string, ws: seq<string>)
    requires ws != []
    ensures Join(" ", [w] + ws) == w + (" " + Join(" ", ws))
  {
    assert ([w] + ws)[1..] == ws;
    assert w + (" " + Join(" ", ws)) == w + " " + Join(" ", ws);
  }

  lemma {:induction false} JoinEndsInWord(ws: seq<string>)
    requires AllWords(ws) && ws != []
    ensures var s := Join(" ", ws); s != "" && !IsSpace(s[0]) && !IsSpace(s[|s| - 1])
  {
    hide IsSpace;
    assert Word(ws[0]);
    if |ws| > 1 {
      JoinEndsInWord(ws[1..]);
    }
  }
}
