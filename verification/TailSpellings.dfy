/** What one more flag adds to a tail, spelled in each of its ways, and when two spellings mean the same. */
module TailSpellings {
  import opened Sequences
  import opened Text
  import opened TailGrammar
  import opened TailRoundTrip

  // ---------------------------------------------------------------------------------------------
  // A tail that goes on with a flag
  // ---------------------------------------------------------------------------------------------

  lemma {:induction false} BareRunBeforeFlag(a: seq<string>, b: seq<string>)
    requires b != [] && Dashed(b[0])
    ensures BareRun(a + b) == BareRun(a)
  {
    hide Dashed;
    if a == [] {
      EmptyAppend(b);
    } else {
      ConsAppend(a, b);
      ConsTail(a[0], a[1..] + b);
      if !Dashed(a[0]) { BareRunBeforeFlag(a[1..], b); }
    }
  }

  lemma FirstBeforeFlag(v: Vocabulary, a: seq<string>, b: seq<string>)
    requires a != [] && a[0] != "--" && b != [] && Dashed(b[0])
    ensures var p := FirstPart(v, a);
            FirstPart(v, a + b) == p && (a + b)[|Tokens(p)|..] == a[|Tokens(p)|..] + b
  {
    hide Dashed, EqualsAt;
    var t, after := a[0], a[1..];
    assert (a + b)[0] == t && (a + b)[1..] == after + b;
    BareRunBeforeFlag(after, b);
    if LongFlag(t) && !Attached(t) {
      var n := Consumed(v, t, after);
      assert Consumed(v, t, after + b) == n;
      assert (after + b)[..n] == after[..n];
    }
    assert |Tokens(FirstPart(v, a))| <= |a|;
  }

  /** The last part before a flag adds what it adds at the end of a tail. */
  lemma AddBeforeFlag(v: Vocabulary, r: TailParse, p: Part, a: seq<string>, b: seq<string>)
    requires b != [] && Dashed(b[0])
    ensures Add(v, r, p, a + b) == Add(v, r, p, a)
  {
    hide Dashed, Record, NoteUnknown, LongFlag;
    if a == [] { EmptyAppend(b); } else { assert (a + b)[0] == a[0]; }
  }

  lemma {:induction false} CollectBeforeFlag(v: Vocabulary, r: TailParse, a: seq<string>, b: seq<string>)
    requires "--" !in a && b != [] && Dashed(b[0])
    ensures Collect(v, r, Parse(v, a + b)) == Collect(v, Collect(v, r, Parse(v, a)), Parse(v, b))
    decreases |a|
  {
    hide Dashed, FirstPart, Tokens, Add, Collect, Parse;
    if a == [] {
      EmptyAppend(b);
      NothingLeft(v, r);
    } else {
      var p := FirstPart(v, a);
      var rest := a[|Tokens(p)|..];
      assert a[0] in a;
      FirstBeforeFlag(v, a, b);
      AddBeforeFlag(v, r, p, rest, b);
      CollectStep(v, r, a);
      CollectStep(v, r, a + b);
      CollectBeforeFlag(v, Add(v, r, p, rest), rest, b);
    }
  }

  /** What precedes a flag is parsed as if the tail ended there. */
  lemma FlagSplitsTail(v: Vocabulary, a: seq<string>, b: seq<string>)
    requires "--" !in a && b != [] && Dashed(b[0])
    ensures ParseTail(v, a + b) == Collect(v, ParseTail(v, a), Parse(v, b))
  {
    hide Dashed, Collect, Parse;
    CollectBeforeFlag(v, EMPTY, a, b);
  }

  // ---------------------------------------------------------------------------------------------
  // The spellings
  // ---------------------------------------------------------------------------------------------

  lemma {:induction false} EqualsAfter(key: string, rest: string)
    requires '=' !in key
    ensures EqualsAt(key + "=" + rest) == |key|
  {
    if key != "" {
      assert (key + "=" + rest)[1..] == key[1..] + "=" + rest;
      EqualsAfter(key[1..], rest);
    }
  }

  /** `--key=value` is taken apart at its first equals sign. */
  lemma AttachedToken(key: string, value: string)
    requires OptionName(key)
    ensures var tok := "--" + key + "=" + value;
            LongFlag(tok) && Attached(tok) && KeyOf(tok) == key && ValueOf(tok) == value
  {
    var tok := "--" + key + "=" + value;
    EqualsAfter(key, value);
    assert tok[2..] == key + "=" + value;
    assert (key + "=" + value)[..|key|] == key && (key + "=" + value)[|key| + 1..] == value;
  }

  /** `r'` is `r` with one more value for `key`, and nothing else. */
  ghost predicate OneMoreValue(v: Vocabulary, r: TailParse, r': TailParse, key: string, value: string) {
    && r'.values == r.values[key := value] && r'.repeats == r.repeats[key := r.RepeatsOf(key) + [value]]
    && r'.unknown == r.unknown + (if v.known.Some? && key !in v.known.value then {key} else {})
    && r'.positionals == r.positionals && r'.booleans == r.booleans && r'.missingValues == r.missingValues
    && r'.ignoredValues == r.ignoredValues && r'.repurposed == r.repurposed
  }

  /** `r'` is `r` with `key` on and these reports, and nothing else. */
  ghost predicate OneMoreSwitch(v: Vocabulary, r: TailParse, r': TailParse, key: string, missing: seq<string>,
                                ignored: seq<(string, string)>, repurposed: seq<(string, string)>) {
    && r'.booleans == r.booleans + {key} && r'.missingValues == r.missingValues + missing
    && r'.ignoredValues == r.ignoredValues + ignored && r'.repurposed == r.repurposed + repurposed
    && r'.unknown == r.unknown + (if v.known.Some? && key !in v.known.value then {key} else {})
    && r'.positionals == r.positionals && r'.values == r.values && r'.repeats == r.repeats
  }

  lemma OneFlag(v: Vocabulary, r: TailParse, p: Part, b: seq<string>)
    requires FitsBefore(v, p, b)
    ensures Collect(v, r, Parse(v, Tokens(p) + b)) == Collect(v, Add(v, r, p, b), Parse(v, b))
  {
    hide Collect, Parse, Add, FitsBefore, Tokens, FirstPart;
    FittingPartIsFirst(v, p, b);
    CollectStep(v, r, Tokens(p) + b);
    AppendDrop(Tokens(p), b);
  }

  lemma AddsValue(v: Vocabulary, r: TailParse, p: Part, key: string, value: string, b: seq<string>)
    requires TakesValue(v, key)
    requires (p.Assign? && LongFlag(p.tok) && Attached(p.tok) && KeyOf(p.tok) == key && ValueOf(p.tok) == value)
             || (p.Valued? && LongFlag(p.tok) && KeyOf(p.tok) == key && Join(" ", p.taken) == value)
    ensures OneMoreValue(v, r, Add(v, r, p, b), key, value)
  {
    hide EqualsAt, Join;
  }

  lemma AttachedPart(v: Vocabulary, key: string, value: string, b: seq<string>)
    requires OptionName(key)
    ensures FitsBefore(v, Assign("--" + key + "=" + value), b)
    ensures Dashed("--" + key + "=" + value) && Tokens(Assign("--" + key + "=" + value)) == ["--" + key + "=" + value]
  {
    AttachedToken(key, value);
  }

  /** A flag that takes a value gets exactly what follows the equals sign, empty or dashed as it may be. */
  lemma AttachedValueIsTaken(v: Vocabulary, a: seq<string>, key: string, value: string)
    requires "--" !in a && OptionName(key) && (key in v.valueFlags || key in v.multiWord)
    ensures OneMoreValue(v, ParseTail(v, a), ParseTail(v, a + ["--" + key + "=" + value]), key, value)
  {
    hide Collect, Parse, Add, FitsBefore, Dashed, EqualsAt, OneMoreValue;
    var p := Assign("--" + key + "=" + value);
    AttachedToken(key, value);
    AttachedPart(v, key, value, []);
    FlagSplitsTail(v, a, Tokens(p));
    OneFlag(v, ParseTail(v, a), p, []);
    EmptyEnd(Tokens(p));
    NothingLeft(v, Add(v, ParseTail(v, a), p, []));
    AddsValue(v, ParseTail(v, a), p, key, value, []);
  }

  /** On any other flag the value is reported as ignored, and the flag is on. */
  lemma AttachedValueIsIgnored(v: Vocabulary, a: seq<string>, key: string, value: string)
    requires "--" !in a && OptionName(key) && key !in v.valueFlags && key !in v.multiWord
    ensures OneMoreSwitch(v, ParseTail(v, a), ParseTail(v, a + ["--" + key + "=" + value]), key, [], [(key, value)], [])
  {
    hide Collect, Parse, FitsBefore, Dashed, EqualsAt;
    var p, r := Assign("--" + key + "=" + value), ParseTail(v, a);
    AttachedToken(key, value);
    AttachedPart(v, key, value, []);
    FlagSplitsTail(v, a, Tokens(p));
    OneFlag(v, r, p, []);
    EmptyEnd(Tokens(p));
    NothingLeft(v, Add(v, r, p, []));
  }

  /** A flag with separate words is one part: a multi-word flag takes them all, a value flag exactly one. */
  lemma SpacedPart(v: Vocabulary, key: string, words: seq<string>, b: seq<string>)
    requires OptionName(key) && words != [] && (forall w :: w in words ==> !Dashed(w))
    requires if key in v.multiWord then b == [] || Dashed(b[0]) else key in v.valueFlags && |words| == 1
    ensures FitsBefore(v, Valued("--" + key, words), b) && Dashed("--" + key)
    ensures Tokens(Valued("--" + key, words)) == ["--" + key] + words
  {
    hide EqualsAt;
    FlagToken(key);
  }

  /** A flag's separate words are its value, joined with single spaces. */
  lemma SpacedValueIsTaken(v: Vocabulary, a: seq<string>, key: string, words: seq<string>)
    requires "--" !in a && OptionName(key) && words != [] && (forall w :: w in words ==> !Dashed(w))
    requires key in v.multiWord || (key in v.valueFlags && |words| == 1)
    ensures OneMoreValue(v, ParseTail(v, a), ParseTail(v, a + ["--" + key] + words), key, Join(" ", words))
  {
    hide Collect, Parse, Add, FitsBefore, Dashed, EqualsAt, OneMoreValue;
    var p, r := Valued("--" + key, words), ParseTail(v, a);
    FlagToken(key);
    SpacedPart(v, key, words, []);
    AppendAssoc(a, ["--" + key], words);
    FlagSplitsTail(v, a, Tokens(p));
    OneFlag(v, r, p, []);
    EmptyEnd(Tokens(p));
    NothingLeft(v, Add(v, r, p, []));
    AddsValue(v, r, p, key, Join(" ", words), []);
  }

  lemma BarePart(v: Vocabulary, key: string, b: seq<string>)
    requires OptionName(key) && (TakesValue(v, key) ==> b == [] || Dashed(b[0]))
    ensures FitsBefore(v, Switch("--" + key), b) && Dashed("--" + key) && Tokens(Switch("--" + key)) == ["--" + key]
  {
    hide EqualsAt;
    FlagToken(key);
  }

  /** A flag that ends the tail is on, and if it should have had a value, that is reported. */
  lemma LastFlagIsOn(v: Vocabulary, a: seq<string>, key: string)
    requires "--" !in a && OptionName(key)
    ensures OneMoreSwitch(v, ParseTail(v, a), ParseTail(v, a + ["--" + key]), key,
                          if key in v.valueFlags || key in v.multiWord then [key] else [], [], [])
  {
    hide Collect, Parse, FitsBefore, Dashed, EqualsAt;
    var p, r := Switch("--" + key), ParseTail(v, a);
    FlagToken(key);
    BarePart(v, key, []);
    FlagSplitsTail(v, a, Tokens(p));
    OneFlag(v, r, p, []);
    EmptyEnd(Tokens(p));
    NothingLeft(v, Add(v, r, p, []));
  }

  /** A word that no dash begins, and a lone dash. */
  predicate IsBare(word: string) {
    word == "-" || !StartsWith(word, "-")
  }

  /** A bare word by itself is a positional and nothing else. */
  lemma WordIsPositional(v: Vocabulary, word: string)
    requires IsBare(word)
    ensures ParseTail(v, [word]) == TailParse([word], map[], map[], {}, {}, [], [], [])
  {
    hide Collect, Parse;
    WordFits(v, word);
    OneFlag(v, EMPTY, Positional(word), []);
    EmptyEnd(Tokens(Positional(word)));
    NothingLeft(v, Add(v, EMPTY, Positional(word), []));
  }

  /** A bare word after a switch is a positional; the pair is reported if the switch is not declared. */
  lemma WordAfterSwitch(v: Vocabulary, a: seq<string>, key: string, word: string)
    requires "--" !in a && OptionName(key) && key !in v.valueFlags && key !in v.multiWord
    requires IsBare(word)
    ensures var r, r' := ParseTail(v, a), ParseTail(v, a + ["--" + key, word]);
            && r'.positionals == r.positionals + [word]
            && OneMoreSwitch(v, r, r'.(positionals := r.positionals), key, [], [],
                             if v.known.Some? && key in v.known.value then [] else [(key, word)])
  {
    hide Collect, Parse, FitsBefore, Dashed, EqualsAt, ShortFlag;
    var p, r := Switch("--" + key), ParseTail(v, a);
    FlagToken(key);
    WordFits(v, word);
    BarePart(v, key, [word]);
    assert Tokens(p) + [word] == ["--" + key, word];
    FlagSplitsTail(v, a, Tokens(p) + [word]);
    OneFlag(v, r, p, [word]);
    OneFlag(v, Add(v, r, p, [word]), Positional(word), []);
    EmptyEnd(Tokens(Positional(word)));
    NothingLeft(v, Add(v, Add(v, r, p, [word]), Positional(word), []));
  }

  lemma WordFits(v: Vocabulary, word: string)
    requires IsBare(word)
    ensures FitsBefore(v, Positional(word), []) && !Dashed(word)
  {
  }

  /** A single dash makes a flag out of the rest of the token. */
  lemma ShortFlagIsOn(v: Vocabulary, key: string)
    requires key != "" && key[0] != '-'
    ensures OneMoreSwitch(v, EMPTY, ParseTail(v, ["-" + key]), key, [], [], [])
  {
    hide Collect, Parse;
    var tok := "-" + key;
    assert tok[1..] == key && ShortFlag(tok);
    OneFlag(v, EMPTY, Short(tok), []);
    EmptyEnd(Tokens(Short(tok)));
    NothingLeft(v, Add(v, EMPTY, Short(tok), []));
  }

  // ---------------------------------------------------------------------------------------------
  // When two spellings mean the same
  // ---------------------------------------------------------------------------------------------

  lemma SameValueAdded(v: Vocabulary, r: TailParse, key: string, value: string, b: seq<string>)
    requires OptionName(key) && TakesValue(v, key)
    ensures Add(v, r, Assign("--" + key + "=" + value), b) == Add(v, r, Valued("--" + key, [value]), b)
  {
    hide EqualsAt;
    AttachedToken(key, value);
    FlagToken(key);
  }

  /** Without a marker before them, the attached and the separate spelling of a value parse alike. */
  lemma SpellingsAgree(v: Vocabulary, a: seq<string>, key: string, value: string, b: seq<string>)
    requires "--" !in a && OptionName(key) && !Dashed(value)
    requires if key in v.multiWord then b == [] || Dashed(b[0]) else key in v.valueFlags
    ensures ParseTail(v, a + ["--" + key + "=" + value] + b) == ParseTail(v, a + ["--" + key, value] + b)
  {
    hide Collect, Parse, Add, FitsBefore, Dashed, EqualsAt;
    var r := ParseTail(v, a);
    var p, q := Assign("--" + key + "=" + value), Valued("--" + key, [value]);
    AttachedPart(v, key, value, b);
    SpacedPart(v, key, [value], b);
    assert Tokens(q) == ["--" + key, value];
    AppendAssoc(a, Tokens(p), b);
    AppendAssoc(a, Tokens(q), b);
    FlagSplitsTail(v, a, Tokens(p) + b);
    FlagSplitsTail(v, a, Tokens(q) + b);
    OneFlag(v, r, p, b);
    OneFlag(v, r, q, b);
    SameValueAdded(v, r, key, value, b);
  }

  /** Everything after the first marker is positional. */
  lemma {:induction false} PositionalsAfterMarker(v: Vocabulary, r: TailParse, a: seq<string>, b: seq<string>, i: nat)
    requires i < |a| && a[i] == "--" && "--" !in a[..i]
    ensures |Collect(v, r, Parse(v, a + b)).positionals| == |Collect(v, r, Parse(v, a)).positionals| + |b|
  {
    hide Collect, Parse, Add;
    var before, after := a[..i], a[i + 1..];
    assert a == before + (["--"] + after) && a + b == before + (["--"] + (after + b));
    assert Dashed("--");
    CollectBeforeFlag(v, r, before, ["--"] + after);
    CollectBeforeFlag(v, r, before, ["--"] + (after + b));
    var s := Collect(v, r, Parse(v, before));
    MarkerEnds(v, s, after);
    MarkerEnds(v, s, after + b);
  }

  lemma MarkerEnds(v: Vocabulary, r: TailParse, after: seq<string>)
    ensures Collect(v, r, Parse(v, ["--"] + after)) == r.(positionals := r.positionals + after)
  {
    hide Collect, Parse;
    OneFlag(v, r, Rest(after), []);
    EmptyEnd(["--"] + after);
    NothingLeft(v, Add(v, r, Rest(after), []));
  }

  lemma {:induction false} FirstMarker(a: seq<string>) returns (i: nat)
    requires "--" in a
    ensures i < |a| && a[i] == "--" && "--" !in a[..i]
  {
    if a[0] == "--" {
      i := 0;
    } else {
      assert exists j :: 0 <= j < |a[1..]| && a[1..][j] == "--" by {
        var k :| 0 <= k < |a| && a[k] == "--";
        assert a[1..][k - 1] == "--";
      }
      i := FirstMarker(a[1..]);
      i := i + 1;
      assert a[..i] == [a[0]] + a[1..][..i - 1];
    }
  }

  /** The two spellings of a value flag parse alike if and only if no marker stands before them. */
  lemma SpellingsAgreeExactlyWhen(v: Vocabulary, a: seq<string>, key: string, value: string, b: seq<string>)
    requires OptionName(key) && key in v.valueFlags && key !in v.multiWord && !Dashed(value)
    ensures ParseTail(v, a + ["--" + key + "=" + value] + b) == ParseTail(v, a + ["--" + key, value] + b)
            <==> "--" !in a
  {
    hide Collect, Parse, Dashed;
    if "--" in a {
      var i := FirstMarker(a);
      var one, two := ["--" + key + "=" + value], ["--" + key, value];
      AppendAssoc(a, one, b);
      AppendAssoc(a, two, b);
      PositionalsAfterMarker(v, EMPTY, a, one + b, i);
      PositionalsAfterMarker(v, EMPTY, a, two + b, i);
    } else {
      SpellingsAgree(v, a, key, value, b);
    }
  }
}
