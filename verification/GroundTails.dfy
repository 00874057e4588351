/** What `ground` makes of a tail put together from a `top_k` flag, filter atoms and the words of a question. */
module GroundTails {
  import opened Sequences
  import opened Text
  import opened TailGrammar
  import opened TailRoundTrip
  import opened TailSpellings
  import opened QuestionFilters
  import opened LeadingFlags

  /** The tokens that give `top_k` the value `k`, in one of its two spellings, or none. */
  ghost predicate GivesTopK(flags: seq<string>, k: Option<string>) {
    match k
    case None => flags == []
    case Some(raw) => flags == ["--top_k=" + raw] || (flags == ["--top_k", raw] && !Dashed(raw))
  }

  lemma TopKName()
    ensures OptionName("top_k") && TakesValue(GROUND, "top_k") && "top_k" !in GROUND.multiWord
    ensures "--" + "top_k" == "--top_k"
  {
  }

  lemma TopKToken(raw: string)
    ensures "--top_k=" + raw == "--" + "top_k" + "=" + raw
  {
  }

  /** Atoms in front of a tail are roles of their own, and the rest is read as if it stood alone. */
  lemma {:induction false} AtomsLead(v: Vocabulary, atoms: seq<string>, rest: seq<string>)
    requires AllAtoms(atoms)
    ensures var lead, lead' := LeadRoles(v, atoms + rest), LeadRoles(v, rest);
            && AtomTokens(lead) == atoms + AtomTokens(lead') && FlagTokens(lead) == FlagTokens(lead')
            && ProseTokens(lead) == ProseTokens(lead') && Remaining(v, atoms + rest) == Remaining(v, rest)
  {
    hide IsAtom, LongFlag;
    if atoms == [] {
      EmptyAppend(rest);
      EmptyAppend(AtomTokens(LeadRoles(v, rest)));
    } else {
      var tail := atoms[1..] + rest;
      assert atoms[0] in atoms;
      AtomIsNotDashed(atoms[0]);
      ConsAppend(atoms, rest);
      ConsTail(atoms[0], tail);
      NotDashedIsNoFlag(atoms[0]);
      AtomsLead(v, atoms[1..], rest);
      ConsTail(Atom(atoms[0]), LeadRoles(v, tail));
      ConsAppend(atoms, AtomTokens(LeadRoles(v, rest)));
    }
  }

  lemma NothingLeads(v: Vocabulary, words: seq<string>)
    requires StopsAt(words)
    ensures LeadRoles(v, words) == [] && Remaining(v, words) == words
  {
  }

  lemma NotDashedIsNoFlag(t: string)
    requires !Dashed(t)
    ensures t != "--" && !LongFlag(t)
  {
  }

  lemma WordsAreProse(words: seq<string>)
    requires StopsAt(words)
    ensures QuestionRoles(words) == AsProse(words)
  {
  }

  /** One flag in front of a tail is one role, and the rest is read as if it stood alone. */
  lemma FlagLeads(v: Vocabulary, p: Part, rest: seq<string>)
    requires FitsBefore(v, p, rest) && (p.Assign? || p.Switch? || p.Valued?) && LongFlag(p.tok)
    ensures var lead, lead' := LeadRoles(v, Tokens(p) + rest), LeadRoles(v, rest);
            && FlagTokens(lead) == Tokens(p) + FlagTokens(lead') && AtomTokens(lead) == AtomTokens(lead')
            && ProseTokens(lead) == ProseTokens(lead') && Remaining(v, Tokens(p) + rest) == Remaining(v, rest)
  {
    hide IsAtom, FitsBefore, EqualsAt, FirstPart;
    var tokens := Tokens(p) + rest;
    assert tokens[0] == p.tok && p.tok != "--";
    FittingPartIsFirst(v, p, rest);
    AppendDrop(Tokens(p), rest);
    ConsTail(Flag(p), LeadRoles(v, rest));
    EmptyAppend(AtomTokens(LeadRoles(v, rest)));
    EmptyAppend(ProseTokens(LeadRoles(v, rest)));
  }

  /** The roles of such a tail: the flag, the atoms, and the words as prose. */
  lemma RolesOfTail(flags: seq<string>, k: Option<string>, atoms: seq<string>, words: seq<string>)
    requires GivesTopK(flags, k) && AllAtoms(atoms) && StopsAt(words)
    ensures var roles := GroundRoles(GROUND, flags + atoms + words);
            FlagTokens(roles) == flags && AtomTokens(roles) == atoms && ProseTokens(roles) == words
  {
    hide LeadRoles, Remaining, QuestionRoles, IsAtom, FitsBefore, EqualsAt, Dashed, StopsAt;
    var rest := atoms + words;
    AppendAssoc(flags, atoms, words);
    AtomsLead(GROUND, atoms, words);
    NothingLeads(GROUND, words);
    WordsAreProse(words);
    ProseCovers(words);
    TopKName();
    if k.None? {
      EmptyAppend(rest);
    } else if flags == ["--top_k", k.value] {
      var p := Valued("--top_k", [k.value]);
      SpacedPart(GROUND, "top_k", [k.value], rest);
      FlagToken("top_k");
      assert Tokens(p) == flags;
      FlagLeads(GROUND, p, rest);
      EmptyEnd(flags);
    } else {
      var p := Assign("--top_k=" + k.value);
      TopKToken(k.value);
      AttachedToken("top_k", k.value);
      AttachedPart(GROUND, "top_k", k.value, rest);
      FlagLeads(GROUND, p, rest);
      EmptyEnd(flags);
    }
    var lead := LeadRoles(GROUND, flags + rest);
    AllTokensAppend(lead, AsProse(words));
    EmptyEnd(atoms);
    EmptyEnd(flags);
    EmptyAppend(words);
  }

  /** Such flags leave nothing but the value of `top_k` behind. */
  lemma FlagsOfTail(flags: seq<string>, k: Option<string>)
    requires GivesTopK(flags, k)
    ensures var r := ParseTail(GROUND, flags);
            && r.values == (if k.Some? then map["top_k" := k.value] else map[])
            && r.missingValues == [] && r.ignoredValues == [] && r.unknown == {}
  {
    hide Dashed, EqualsAt;
    TopKName();
    assert ParseTail(GROUND, []) == EMPTY;
    hide Collect, Parse;
    if k.Some? {
      if flags == ["--top_k", k.value] {
        SpacedValueIsTaken(GROUND, [], "top_k", [k.value]);
        assert [] + ["--" + "top_k"] + [k.value] == flags;
      } else {
        TopKToken(k.value);
        AttachedValueIsTaken(GROUND, [], "top_k", k.value);
        EmptyAppend(flags);
      }
    }
  }

  /** 3 if nothing or no integer is asked for, and otherwise the nearest number from 1 to 10; differences are noted. */
  ghost predicate IsNearest(topK: int, note: TopKNote, k: Option<string>, readInt: string -> Option<int>) {
    if k.None? then topK == 3 && note == Fine
    else
      match readInt(k.value)
      case None => topK == 3 && note == NotAnInteger(k.value)
      case Some(n) =>
        && 1 <= topK <= 10 && (forall m :: 1 <= m <= 10 ==> Distance(topK, n) <= Distance(m, n))
        && note == if topK == n then Fine else Clamped(n)
  }

  /**
   * A tail of at most one `top_k`, filter atoms, and words of which the first looks like neither, searches
   * for those words under the filters the atoms mean, for the nearest possible number of entries, and
   * reports nothing else but words that look like flags. Without words it asks for a question.
   */
  lemma GroundReadsTail(flags: seq<string>, k: Option<string>, atoms: seq<string>, words: seq<string>,
                        readInt: string -> Option<int>)
    requires GivesTopK(flags, k) && AllAtoms(atoms) && StopsAt(words)
    ensures var g := GroundOf(flags + atoms + words, readInt);
            && !g.Refused? && g.notes.unknown == {} && g.notes.ignored == []
            && (g.NoQuestion? <==> words == [])
            && (exists topK :: IsNearest(topK, g.notes.topK, k, readInt))
            && (words != [] ==>
                  && g.query == Join(" ", words) && Means(atoms, g.filters)
                  && IsNearest(g.topK, g.notes.topK, k, readInt)
                  && (g.strayFlags <==> exists w :: w in words && StartsWith(w, "--")))
  {
    hide GroundRoles, ParseTail, FlagTokens, AtomTokens, ProseTokens, Join, IsAtom, Means, StopsAt, FiltersOf;
    RolesOfTail(flags, k, atoms, words);
    FlagsOfTail(flags, k);
    FiltersMean(atoms);
    StrayWords(words);
    TopKIsNearest(ParseTail(GROUND, flags), k, readInt);
  }

  lemma TopKIsNearest(parsed: TailParse, k: Option<string>, readInt: string -> Option<int>)
    requires parsed.values == if k.Some? then map["top_k" := k.value] else map[]
    ensures var t := TopKOf(parsed, readInt); IsNearest(t.value, t.note, k, readInt)
  {
  }

  /** A `top_k` that ends the tail is refused by name. */
  lemma GroundRefusesBareFlag(atoms: seq<string>, readInt: string -> Option<int>)
    requires AllAtoms(atoms)
    ensures GroundOf(atoms + ["--top_k"], readInt) == Refused(["top_k"])
  {
    hide LeadRoles, Remaining, QuestionRoles, IsAtom, FitsBefore, EqualsAt, Dashed, Collect, Parse;
    var flag := ["--top_k"];
    TopKName();
    BarePart(GROUND, "top_k", []);
    FlagToken("top_k");
    EmptyEnd(flag);
    FlagLeads(GROUND, Switch("--top_k"), []);
    NothingLeads(GROUND, []);
    AtomsLead(GROUND, atoms, flag);
    var lead := LeadRoles(GROUND, atoms + flag);
    assert FlagTokens(LeadRoles(GROUND, flag)) == flag;
    assert Remaining(GROUND, atoms + flag) == [];
    WordsAreProse([]);
    ProseCovers([]);
    AllTokensAppend(lead, AsProse([]));
    assert FlagTokens(GroundRoles(GROUND, atoms + flag)) == flag;
    LastFlagIsOn(GROUND, [], "top_k");
    EmptyAppend(flag);
    assert ParseTail(GROUND, []) == EMPTY by { NothingLeft(GROUND, EMPTY); }
  }

  lemma StrayWords(words: seq<string>)
    ensures HasDashed(words) <==> exists w :: w in words && StartsWith(w, "--")
  {
    if i :| 0 <= i < |words| && Dashed(words[i]) { assert words[i] in words; }
  }
}
