/** Printing a parsed tail's flags, and when parsing the printed flags gives the same flags again. */
module TailRoundTrip {
  import opened Sequences
  import opened Text
  import opened TailGrammar
  import opened TailInvariants

  /** The occurrences of one flag: a value flag once per value, a switch bare. */
  function FlagParts(r: TailParse, key: string): seq<Part> {
    var values := r.RepeatsOf(key);
    if values != [] then seq(|values|, i requires 0 <= i < |values| => Valued("--" + key, [values[i]]))
    else if key in r.booleans then [Switch("--" + key)]
    else []
  }

  function RenderParts(r: TailParse, wanted: seq<string>): seq<Part> {
    if wanted == [] then [] else RenderParts(r, wanted[..|wanted| - 1]) + FlagParts(r, wanted[|wanted| - 1])
  }

  /** The argument vector that printing the flags of `wanted` stands for. */
  function RenderTokens(r: TailParse, wanted: seq<string>): seq<string> {
    Flatten(RenderParts(r, wanted))
  }

  lemma {:induction false} FlattenAppend(a: seq<Part>, b: seq<Part>)
    ensures Flatten(a + b) == Flatten(a) + Flatten(b)
  {
    if a == [] {
      EmptyAppend(b);
      EmptyAppend(Flatten(b));
    } else {
      hide Tokens;
      ConsAppend(a, b);
      ConsTail(a[0], a[1..] + b);
      FlattenAppend(a[1..], b);
      AppendAssoc(Tokens(a[0]), Flatten(a[1..]), Flatten(b));
    }
  }

  lemma FlattenOne(p: Part)
    ensures Flatten([p]) == Tokens(p)
  {
    EmptyEnd(Tokens(p));
    assert [p][1..] == [];
  }

  /** `_render_flags`: the loop over the requested flags and, inside it, over one flag's values. */
  method RenderFlags(r: TailParse, wanted: seq<string>) returns (out: seq<string>)
    ensures out == RenderTokens(r, wanted)
  {
    hide Flatten, Tokens;
    FlattenNone();
    out := [];
    for n := 0 to |wanted|
      invariant out == Flatten(RenderParts(r, wanted[..n]))
    {
      var key := wanted[n];
      var values := r.RepeatsOf(key);
      ghost var before, parts := out, FlagParts(r, key);
      RenderMore(r, wanted, n);
      FlattenAppend(RenderParts(r, wanted[..n]), parts);
      if values != [] {
        EmptyEnd(before);
        for i := 0 to |values|
          invariant out == before + Flatten(parts[..i])
        {
          TakeSnoc(parts, i);
          FlattenAppend(parts[..i], [parts[i]]);
          FlattenValued("--" + key, values[i]);
          AppendAssoc(before, Flatten(parts[..i]), ["--" + key, values[i]]);
          out := out + ["--" + key, values[i]];
        }
        TakeAll(parts);
      } else if key in r.booleans {
        FlattenSwitch("--" + key);
        out := out + ["--" + key];
      } else {
        EmptyEnd(before);
      }
    }
    TakeAll(wanted);
  }

  lemma FlattenNone()
    ensures Flatten([]) == []
  {
  }

  lemma FlattenValued(tok: string, value: string)
    ensures Flatten([Valued(tok, [value])]) == [tok, value]
  {
    FlattenOne(Valued(tok, [value]));
  }

  lemma FlattenSwitch(tok: string)
    ensures Flatten([Switch(tok)]) == [tok]
  {
    FlattenOne(Switch(tok));
  }

  lemma RenderMore(r: TailParse, wanted: seq<string>, n: nat)
    requires n < |wanted|
    ensures RenderParts(r, wanted[..n + 1]) == RenderParts(r, wanted[..n]) + FlagParts(r, wanted[n])
  {
    hide FlagParts;
    TakeSnoc(wanted, n);
    assert wanted[..n + 1][..n] == wanted[..n];
  }

  // ---------------------------------------------------------------------------------------------
  // Parsing what was printed
  // ---------------------------------------------------------------------------------------------

  predicate OptionName(key: string) {
    key != "" && '=' !in key
  }

  lemma {:induction false} NoEquals(s: string)
    requires '=' !in s
    ensures EqualsAt(s) == |s|
  {
  }

  lemma FlagToken(key: string)
    requires OptionName(key)
    ensures LongFlag("--" + key) && !Attached("--" + key) && KeyOf("--" + key) == key
  {
    NoEquals(key);
    assert ("--" + key)[2..] == key;
  }

  /** A part that printing can produce. */
  predicate Printed(v: Vocabulary, p: Part) {
    && (p.Switch? || (p.Valued? && |p.taken| == 1))
    && LongFlag(p.tok) && !Attached(p.tok) && Declared(v, KeyOf(p.tok))
    && (p.Valued? ==> TakesValue(v, KeyOf(p.tok)))
  }

  /** A printed part that is read back as it was meant. */
  predicate Sound(v: Vocabulary, p: Part)
    requires Printed(v, p)
  {
    match p
    case Valued(tok, taken) => !Dashed(taken[0])
    case Switch(tok) => !TakesValue(v, KeyOf(tok))
  }

  predicate AllPrinted(v: Vocabulary, parts: seq<Part>) {
    forall i :: 0 <= i < |parts| ==> Printed(v, parts[i])
  }

  predicate AllSound(v: Vocabulary, parts: seq<Part>)
    requires AllPrinted(v, parts)
  {
    forall i :: 0 <= i < |parts| ==> Sound(v, parts[i])
  }

  predicate Names(p: Part, key: string) {
    (p.Switch? || p.Valued?) && p.tok == "--" + key
  }

  predicate Mentions(parts: seq<Part>, key: string) {
    exists i :: 0 <= i < |parts| && Names(parts[i], key)
  }

  lemma PrintedStartsDashed(v: Vocabulary, parts: seq<Part>)
    requires AllPrinted(v, parts)
    ensures Flatten(parts) == [] || Dashed(Flatten(parts)[0])
  {
  }

  lemma {:induction false} SoundIsWellFormed(v: Vocabulary, parts: seq<Part>)
    requires AllPrinted(v, parts) && AllSound(v, parts)
    ensures WellFormed(v, parts)
  {
    hide EqualsAt, Dashed, Flatten;
    if parts != [] {
      PrintedStartsDashed(v, parts[1..]);
      SoundIsWellFormed(v, parts[1..]);
      assert Printed(v, parts[0]) && Sound(v, parts[0]);
    }
  }

  /** A printed flag that is not sound loses its value when it is read back. */
  lemma {:induction false} UnsoundIsMissing(v: Vocabulary, parts: seq<Part>)
    requires AllPrinted(v, parts) && !AllSound(v, parts)
    ensures MissingOf(v, Parse(v, Flatten(parts))) != []
  {
    hide EqualsAt, Dashed, Tokens, FirstPart, Flatten, FitsBefore, Printed, Sound;
    var p, tail := parts[0], Flatten(parts[1..]);
    PrintedStartsDashed(v, parts[1..]);
    HeadTail(parts);
    ReadsFirst(v, p, parts[1..]);
    var q := FirstPart(v, Flatten(parts));
    ParseStep(v, Flatten(parts));
    if Sound(v, p) {
      UnsoundIsMissing(v, parts[1..]);
      MissingCons(v, q, Parse(v, tail));
    } else {
      MissingCons(v, q, Parse(v, Flatten(parts)[|Tokens(q)|..]));
    }
  }

  lemma MissingCons(v: Vocabulary, p: Part, rest: seq<Part>)
    ensures MissingOf(v, [p] + rest) == MissingOf(v, [p]) + MissingOf(v, rest)
  {
    hide EqualsAt;
    ConsTail(p, rest);
    assert [p][1..] == [];
  }

  lemma ParseStep(v: Vocabulary, tokens: seq<string>)
    requires tokens != []
    ensures Parse(v, tokens) == [FirstPart(v, tokens)] + Parse(v, tokens[|Tokens(FirstPart(v, tokens))|..])
  {
    hide FirstPart, Tokens;
  }

  lemma FlattenCons(p: Part, rest: seq<Part>)
    ensures Flatten([p] + rest) == Tokens(p) + Flatten(rest)
  {
    ConsTail(p, rest);
  }

  lemma ReadsFirst(v: Vocabulary, p: Part, rest: seq<Part>)
    requires Printed(v, p) && AllPrinted(v, rest)
    ensures Flatten([p] + rest) != []
    ensures Sound(v, p) ==>
            FirstPart(v, Flatten([p] + rest)) == p && Flatten([p] + rest)[|Tokens(p)|..] == Flatten(rest)
    ensures !Sound(v, p) ==> MissingOf(v, [FirstPart(v, Flatten([p] + rest))]) != []
  {
    hide EqualsAt, Dashed, Flatten, FirstPart;
    var after := Flatten(rest);
    FlattenCons(p, rest);
    PrintedStartsDashed(v, rest);
    if Sound(v, p) {
      FittingPartIsFirst(v, p, after);
      AppendDrop(Tokens(p), after);
    } else if p.Switch? {
      FittingPartIsFirst(v, p, after);
      MissingSwitch(v, p.tok);
    } else {
      AppendThree(p.tok, p.taken, after);
      FittingPartIsFirst(v, Switch(p.tok), p.taken + after);
      AppendAssoc([p.tok], p.taken, after);
      MissingSwitch(v, p.tok);
    }
  }

  lemma MissingSwitch(v: Vocabulary, tok: string)
    requires LongFlag(tok) && TakesValue(v, KeyOf(tok))
    ensures MissingOf(v, [Switch(tok)]) == [KeyOf(tok)]
  {
    hide KeyOf;
    assert [Switch(tok)][1..] == [];
  }

  /** Reading sound parts back gathers their flags and nothing else. */
  lemma {:induction false} SoundIsGathered(v: Vocabulary, r: TailParse, parts: seq<Part>, key: string)
    requires AllPrinted(v, parts) && AllSound(v, parts)
    ensures var s := Collect(v, r, parts);
            && s.positionals == r.positionals && s.missingValues == r.missingValues
            && s.ignoredValues == r.ignoredValues && s.repurposed == r.repurposed && s.unknown == r.unknown
            && (s.FlagOn(key) <==> r.FlagOn(key) || Mentions(parts, key))
    decreases parts
  {
    hide EqualsAt, Dashed, Flatten, Printed, Sound, Add, TailParse.FlagOn, Names;
    if parts != [] {
      var p, tail := parts[0], parts[1..];
      PrintedStartsDashed(v, tail);
      assert Printed(v, p) && Sound(v, p);
      SoundIsGathered(v, Add(v, r, p, Flatten(tail)), tail, key);
      SoundAdds(v, r, p, Flatten(tail), key);
      assert Mentions(parts, key) <==> Names(p, key) || Mentions(tail, key) by {
        if Names(parts[0], key) {} else if Mentions(parts, key) {
          var i :| 0 <= i < |parts| && Names(parts[i], key);
          assert Names(tail[i - 1], key);
        }
      }
    }
  }

  lemma SoundAdds(v: Vocabulary, r: TailParse, p: Part, after: seq<string>, key: string)
    requires Printed(v, p) && Sound(v, p) && (after == [] || Dashed(after[0]))
    ensures var s := Add(v, r, p, after);
            && s.positionals == r.positionals && s.missingValues == r.missingValues
            && s.ignoredValues == r.ignoredValues && s.repurposed == r.repurposed && s.unknown == r.unknown
            && (s.FlagOn(key) <==> r.FlagOn(key) || Names(p, key))
  {
    hide Dashed;
    NameOfToken(p.tok, key);
  }

  lemma NameOfToken(tok: string, key: string)
    requires LongFlag(tok) && !Attached(tok)
    ensures KeyOf(tok) == key <==> tok == "--" + key
  {
    assert KeyOf(tok) == tok[2..];
    assert tok == "--" + tok[2..];
  }

  // ---------------------------------------------------------------------------------------------
  // The round trip
  // ---------------------------------------------------------------------------------------------

  /** Printing may be asked for these flags: distinct, declared, and spelled without `=`. */
  predicate Printable(v: Vocabulary, wanted: seq<string>) {
    && (forall i :: 0 <= i < |wanted| ==> OptionName(wanted[i]) && Declared(v, wanted[i]))
    && (forall i, j :: 0 <= i < j < |wanted| ==> wanted[i] != wanted[j])
  }

  /** A value that would be read as a flag, or a value flag that would be printed bare. */
  predicate Misread(v: Vocabulary, r: TailParse, key: string) {
    || (exists i :: 0 <= i < |r.RepeatsOf(key)| && Dashed(r.RepeatsOf(key)[i]))
    || (r.RepeatsOf(key) == [] && key in r.booleans && TakesValue(v, key))
  }

  /** `again` carries exactly what `r` says about the wanted flags. */
  predicate SameFlags(r: TailParse, again: TailParse, wanted: seq<string>) {
    && again.positionals == [] && again.missingValues == [] && again.ignoredValues == []
    && again.repurposed == [] && again.unknown == {}
    && (forall k :: k in wanted ==> again.RepeatsOf(k) == r.RepeatsOf(k) && again.FlagOn(k) == r.FlagOn(k))
  }

  lemma FlagPartsPrinted(v: Vocabulary, r: TailParse, key: string)
    requires Coherent(v, r) && OptionName(key) && Declared(v, key)
    ensures AllPrinted(v, FlagParts(r, key))
    ensures AllSound(v, FlagParts(r, key)) <==> !Misread(v, r, key)
  {
    hide EqualsAt, Dashed, LongFlag, KeyOf, OptionName;
    FlagToken(key);
    var parts, values := FlagParts(r, key), r.RepeatsOf(key);
    if values != [] {
      forall i | 0 <= i < |values|
        ensures Printed(v, parts[i]) && (Sound(v, parts[i]) <==> !Dashed(values[i]))
      {
        assert parts[i] == Valued("--" + key, [values[i]]);
      }
      hide Printed, Sound, FlagParts;
      assert AllSound(v, parts) <==> forall i :: 0 <= i < |values| ==> !Dashed(values[i]);
    } else if key in r.booleans {
      assert parts == [Switch("--" + key)];
      assert Printed(v, parts[0]) && (Sound(v, parts[0]) <==> !TakesValue(v, key));
    }
  }

  lemma {:induction false} RenderIsPrinted(v: Vocabulary, r: TailParse, wanted: seq<string>)
    requires Coherent(v, r) && Printable(v, wanted)
    ensures AllPrinted(v, RenderParts(r, wanted))
    ensures AllSound(v, RenderParts(r, wanted)) <==> forall k :: k in wanted ==> !Misread(v, r, k)
  {
    hide FlagParts, Misread, Coherent, OptionName, Declared, Printed, Sound;
    if wanted != [] {
      var before, key := wanted[..|wanted| - 1], wanted[|wanted| - 1];
      RenderIsPrinted(v, r, before);
      FlagPartsPrinted(v, r, key);
      PrintedTogether(v, RenderParts(r, before), FlagParts(r, key));
      SnocMembers(wanted);
    }
  }

  lemma SnocMembers(s: seq<string>)
    requires s != []
    ensures forall k :: k in s <==> k in s[..|s| - 1] || k == s[|s| - 1]
  {
    TakeSnoc(s, |s| - 1);
    TakeAll(s);
  }

  lemma PrintedTogether(v: Vocabulary, a: seq<Part>, b: seq<Part>)
    requires AllPrinted(v, a) && AllPrinted(v, b)
    ensures AllPrinted(v, a + b)
    ensures AllSound(v, a + b) <==> AllSound(v, a) && AllSound(v, b)
  {
    hide Printed, Sound;
    assert forall i :: 0 <= i < |a| ==> (a + b)[i] == a[i];
    assert forall i :: 0 <= i < |b| ==> (a + b)[|a| + i] == b[i];
  }

  lemma {:induction false} GivenTogether(v: Vocabulary, a: seq<Part>, b: seq<Part>, key: string)
    ensures AllGivenTo(v, a + b, key) == AllGivenTo(v, a, key) + AllGivenTo(v, b, key)
    ensures Mentions(a + b, key) <==> Mentions(a, key) || Mentions(b, key)
  {
    hide GivenTo, Names;
    if a == [] {
      EmptyAppend(b);
      EmptyAppend(AllGivenTo(v, b, key));
    } else {
      ConsAppend(a, b);
      ConsTail(a[0], a[1..] + b);
      GivenTogether(v, a[1..], b, key);
      AppendAssoc(GivenTo(v, a[0], key), AllGivenTo(v, a[1..], key), AllGivenTo(v, b, key));
    }
    assert forall i :: 0 <= i < |a| ==> (a + b)[i] == a[i];
    assert forall i :: 0 <= i < |b| ==> (a + b)[|a| + i] == b[i];
  }

  lemma {:induction false} ValuedGives(v: Vocabulary, name: string, parts: seq<Part>, values: seq<string>, key: string)
    requires OptionName(name) && |parts| == |values|
    requires forall i :: 0 <= i < |values| ==> parts[i] == Valued("--" + name, [values[i]])
    ensures AllGivenTo(v, parts, key) == if name == key then values else []
  {
    hide EqualsAt, KeyOf, LongFlag, OptionName;
    if values != [] {
      FlagToken(name);
      ValuedGives(v, name, parts[1..], values[1..], key);
      HeadTail(values);
    }
  }

  lemma FlagPartsGive(v: Vocabulary, r: TailParse, name: string, key: string)
    requires OptionName(name) && Coherent(v, r)
    ensures AllGivenTo(v, FlagParts(r, name), key) == if name == key then r.RepeatsOf(key) else []
    ensures Mentions(FlagParts(r, name), key) <==> name == key && r.FlagOn(key)
  {
    hide EqualsAt, KeyOf, LongFlag, OptionName, TakesValue;
    var parts, values := FlagParts(r, name), r.RepeatsOf(name);
    SameName(name, key);
    if values != [] {
      ValuedGives(v, name, parts, values, key);
      assert Names(parts[0], key) <==> name == key;
    } else if name in r.booleans {
      assert parts == [Switch("--" + name)] && parts[1..] == [];
      assert Names(parts[0], key) <==> name == key;
    }
  }

  lemma SameName(a: string, b: string)
    ensures "--" + a == "--" + b <==> a == b
  {
    assert ("--" + a)[2..] == a && ("--" + b)[2..] == b;
  }

  lemma {:induction false} RenderGives(v: Vocabulary, r: TailParse, wanted: seq<string>, key: string)
    requires Coherent(v, r) && Printable(v, wanted)
    ensures AllGivenTo(v, RenderParts(r, wanted), key) == if key in wanted then r.RepeatsOf(key) else []
    ensures Mentions(RenderParts(r, wanted), key) <==> key in wanted && r.FlagOn(key)
  {
    hide FlagParts, Coherent, OptionName, Declared, AllGivenTo, Mentions, TailParse.RepeatsOf, TailParse.FlagOn;
    if wanted == [] {
      NothingGiven(v, key);
    } else {
      var before, name := wanted[..|wanted| - 1], wanted[|wanted| - 1];
      RenderGives(v, r, before, key);
      FlagPartsGive(v, r, name, key);
      GivenTogether(v, RenderParts(r, before), FlagParts(r, name), key);
      SnocMembers(wanted);
      EmptyEnd(AllGivenTo(v, RenderParts(r, before), key));
      EmptyAppend(AllGivenTo(v, FlagParts(r, name), key));
    }
  }

  lemma NothingGiven(v: Vocabulary, key: string)
    ensures AllGivenTo(v, [], key) == [] && !Mentions([], key)
  {
  }

  /**
   * Printing flags and parsing them again gives the same flags exactly when no printed value begins
   * with `--` and no value flag is on without a value.
   */
  lemma PrintedFlagsReadBack(v: Vocabulary, tokens: seq<string>, wanted: seq<string>)
    requires Printable(v, wanted)
    ensures var r := ParseTail(v, tokens);
            SameFlags(r, ParseTail(v, RenderTokens(r, wanted)), wanted)
            <==> forall k :: k in wanted ==> !Misread(v, r, k)
  {
    hide ParseTail, Parse, Flatten, Collect, RenderParts, Misread, AllPrinted, AllSound, Printable, Mentions,
         Coherent, WellFormed, AllGivenTo, TailParse.RepeatsOf, TailParse.FlagOn;
    var r := ParseTail(v, tokens);
    var parts := RenderParts(r, wanted);
    var again := ParseTail(v, RenderTokens(r, wanted));
    ParseIsCoherent(v, tokens);
    RenderIsPrinted(v, r, wanted);
    if AllSound(v, parts) {
      forall k ensures again.RepeatsOf(k) == (if k in wanted then r.RepeatsOf(k) else [])
               ensures again.FlagOn(k) <==> k in wanted && r.FlagOn(k)
      {
        SoundReadsBack(v, parts, k);
        RenderGives(v, r, wanted, k);
      }
      SoundReadsBack(v, parts, "");
    } else {
      UnsoundIsMissing(v, parts);
      ParseGathersInOrder(v, Flatten(parts), "");
    }
  }

  lemma SoundReadsBack(v: Vocabulary, parts: seq<Part>, key: string)
    requires AllPrinted(v, parts) && AllSound(v, parts)
    ensures var again := ParseTail(v, Flatten(parts));
            && again.RepeatsOf(key) == AllGivenTo(v, parts, key)
            && (again.FlagOn(key) <==> Mentions(parts, key))
            && again.positionals == [] && again.missingValues == [] && again.ignoredValues == []
            && again.repurposed == [] && again.unknown == {}
  {
    hide Parse, Flatten, Collect, AllPrinted, AllSound, Mentions, WellFormed, AllGivenTo;
    SoundIsWellFormed(v, parts);
    ParseIsUnique(v, parts);
    SoundIsGathered(v, EMPTY, parts, key);
    ParseGathersInOrder(v, Flatten(parts), key);
  }

  /**
   * The single-dash spelling of a value flag is where it fails: `-tag` turns `tag` on without a value,
   * it prints as `--tag`, and reading that back reports a missing value.
   */
  lemma SingleDashIsMisread()
    ensures var v := Vocabulary({"tag"}, {}, Some({"tag"}));
            var r := ParseTail(v, ["-tag"]);
            && r.missingValues == [] && RenderTokens(r, ["tag"]) == ["--tag"]
            && ParseTail(v, ["--tag"]).missingValues == ["tag"]
  {
    hide Parse;
    var v := Vocabulary({"tag"}, {}, Some({"tag"}));
    FlagToken("tag");
    assert "--" + "tag" == "--tag";
    assert "-tag"[1] == 't' && "--"[1] == '-';
    LoneToken(v, Short("-tag"));
    LoneToken(v, Switch("--tag"));
    var r := ParseTail(v, ["-tag"]);
    assert "-tag"[1..] == "tag";
    assert RenderParts(r, ["tag"][..0]) == [];
    assert FlagParts(r, "tag") == [Switch("--tag")];
  }

  /** A part that may stand alone is the whole reading of its tokens. */
  lemma LoneToken(v: Vocabulary, p: Part)
    requires FitsBefore(v, p, [])
    ensures Parse(v, Tokens(p)) == [p] && Flatten([p]) == Tokens(p)
  {
    hide Parse, FitsBefore;
    FlattenOne(p);
    assert [p][1..] == [] && Flatten([]) == [];
    ParseIsUnique(v, [p]);
  }
}
