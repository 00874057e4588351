/** The `ground` prompt: a leading run of flags and filters, an optional `--`, and then a question. */
module LeadingFlags {
  import opened Sequences
  import opened Text
  import opened Words
  import opened TailGrammar
  import opened TailInvariants
  import opened QuestionFilters

  /** What one stretch of a `ground` tail is. */
  datatype Role =
    | Flag(part: Part)
    | Atom(tok: string)
    | Marker
    | Prose(tok: string)

  function RoleTokens(r: Role): (ts: seq<string>)
    ensures ts != []
  {
    match r
    case Flag(part) => Tokens(part)
    case Marker => ["--"]
    case _ => [r.tok]
  }

  function AllTokens(roles: seq<Role>): seq<string> {
    if roles == [] then [] else RoleTokens(roles[0]) + AllTokens(roles[1..])
  }

  function FlagTokens(roles: seq<Role>): seq<string> {
    if roles == [] then []
    else (if roles[0].Flag? then Tokens(roles[0].part) else []) + FlagTokens(roles[1..])
  }

  function AtomTokens(roles: seq<Role>): seq<string> {
    if roles == [] then []
    else (if roles[0].Atom? then [roles[0].tok] else []) + AtomTokens(roles[1..])
  }

  function ProseTokens(roles: seq<Role>): seq<string> {
    if roles == [] then []
    else (if roles[0].Prose? then [roles[0].tok] else []) + ProseTokens(roles[1..])
  }

  function AsProse(tokens: seq<string>): seq<Role> {
    seq(|tokens|, i requires 0 <= i < |tokens| => Prose(tokens[i]))
  }

  /** Filter atoms in front of prose: what is left once the flags are done. */
  function QuestionRoles(tokens: seq<string>): seq<Role> {
    if tokens == [] then []
    else if IsAtom(tokens[0]) then [Atom(tokens[0])] + QuestionRoles(tokens[1..])
    else AsProse(tokens)
  }

  /** Where the leading run stops. */
  predicate StopsAt(tokens: seq<string>) {
    tokens == [] || (tokens[0] != "--" && !LongFlag(tokens[0]) && !IsAtom(tokens[0]))
  }

  /** The roles of the leading run: flags with their values, filter atoms, and the marker that ends it. */
  function LeadRoles(v: Vocabulary, tokens: seq<string>): seq<Role>
    decreases |tokens|
  {
    if StopsAt(tokens) then []
    else if tokens[0] == "--" then [Marker]
    else if LongFlag(tokens[0]) then
      var p := FirstPart(v, tokens);
      [Flag(p)] + LeadRoles(v, tokens[|Tokens(p)|..])
    else [Atom(tokens[0])] + LeadRoles(v, tokens[1..])
  }

  /** The tokens the leading run leaves for the question. */
  function Remaining(v: Vocabulary, tokens: seq<string>): seq<string>
    decreases |tokens|
  {
    if StopsAt(tokens) then tokens
    else if tokens[0] == "--" then tokens[1..]
    else if LongFlag(tokens[0]) then Remaining(v, tokens[|Tokens(FirstPart(v, tokens))|..])
    else Remaining(v, tokens[1..])
  }

  /** The role of every token of a `ground` tail. */
  function GroundRoles(v: Vocabulary, tokens: seq<string>): seq<Role> {
    LeadRoles(v, tokens) + QuestionRoles(Remaining(v, tokens))
  }

  // ---------------------------------------------------------------------------------------------
  // The leading scan
  // ---------------------------------------------------------------------------------------------

  /** The scan at token `i`: what it has collected and what the rest will add make up the whole run. */
  ghost predicate Scanned(v: Vocabulary, tokens: seq<string>, head: seq<string>, carry: seq<string>, i: nat) {
    && i <= |tokens|
    && FlagTokens(LeadRoles(v, tokens)) == head + FlagTokens(LeadRoles(v, tokens[i..]))
    && AtomTokens(LeadRoles(v, tokens)) == carry + AtomTokens(LeadRoles(v, tokens[i..]))
    && Remaining(v, tokens) == Remaining(v, tokens[i..])
  }

  lemma ScanFlag(v: Vocabulary, tokens: seq<string>, head: seq<string>, carry: seq<string>, i: nat, next: nat, p: Part)
    requires Scanned(v, tokens, head, carry, i) && i < next <= |tokens|
    requires LongFlag(tokens[i]) && p == FirstPart(v, tokens[i..]) && tokens[i..next] == Tokens(p)
    ensures Scanned(v, tokens, head + tokens[i..next], carry, next)
  {
    hide FirstPart, Tokens, IsAtom;
    var rest := LeadRoles(v, tokens[next..]);
    DropPast(tokens, i, next);
    assert tokens[i..][0] == tokens[i] && tokens[i] != "--";
    ConsTail(Flag(p), rest);
    assert head + (tokens[i..next] + FlagTokens(rest)) == (head + tokens[i..next]) + FlagTokens(rest);
    EmptyAppend(AtomTokens(rest));
  }

  lemma ScanAtom(v: Vocabulary, tokens: seq<string>, head: seq<string>, carry: seq<string>, i: nat)
    requires Scanned(v, tokens, head, carry, i) && i < |tokens|
    requires tokens[i] != "--" && !LongFlag(tokens[i]) && IsAtom(tokens[i])
    ensures Scanned(v, tokens, head, carry + [tokens[i]], i + 1)
  {
    hide FirstPart, Tokens, IsAtom, LongFlag;
    var rest := LeadRoles(v, tokens[i + 1..]);
    DropPast(tokens, i, i + 1);
    assert tokens[i..][0] == tokens[i];
    ConsTail(Atom(tokens[i]), rest);
    assert carry + ([tokens[i]] + AtomTokens(rest)) == (carry + [tokens[i]]) + AtomTokens(rest);
    EmptyAppend(FlagTokens(rest));
  }

  lemma ScanStops(v: Vocabulary, tokens: seq<string>, head: seq<string>, carry: seq<string>, i: nat)
    requires Scanned(v, tokens, head, carry, i)
    requires i == |tokens| || tokens[i] == "--" || StopsAt(tokens[i..])
    ensures head == FlagTokens(LeadRoles(v, tokens)) && carry == AtomTokens(LeadRoles(v, tokens))
    ensures Remaining(v, tokens) == tokens[if i < |tokens| && tokens[i] == "--" then i + 1 else i..]
  {
    hide FirstPart, Tokens, IsAtom, LongFlag;
    EmptyEnd(head);
    EmptyEnd(carry);
    if i < |tokens| && tokens[i] == "--" {
      assert tokens[i..][0] == "--" && tokens[i..][1..] == tokens[i + 1..];
      MarkerAlone();
      assert !StopsAt(tokens[i..]);
    }
  }

  lemma MarkerAlone()
    ensures FlagTokens([Marker]) == [] && AtomTokens([Marker]) == [] && ProseTokens([Marker]) == []
  {
    assert [Marker][1..] == [];
  }

  /** The leading scan over the words of a tail. */
  method ScanLeading(v: Vocabulary, tokens: seq<string>)
    returns (head: seq<string>, carry: seq<string>, i: nat)
    requires v.multiWord == {}
    ensures head == FlagTokens(LeadRoles(v, tokens)) && carry == AtomTokens(LeadRoles(v, tokens))
    ensures i <= |tokens| && tokens[i..] == Remaining(v, tokens)
  {
    hide Scanned, LeadRoles, Remaining, FlagTokens, AtomTokens, IsAtom, EqualsAt;
    head, carry, i := [], [], 0;
    ScanStarts(v, tokens);
    while i < |tokens|
      invariant i <= |tokens| && Scanned(v, tokens, head, carry, i)
    {
      var tok := tokens[i];
      ghost var at := i;
      if tok == "--" {
        ScanStops(v, tokens, head, carry, i);
        i := i + 1;
        return;
      }
      if !(Dashed(tok) && |tok| > 2) {
        if IsAtom(tok) {
          ScanAtom(v, tokens, head, carry, i);
          carry := carry + [tok];
          i := i + 1;
          continue;
        }
        assert tokens[i..][0] == tok;
        ScanStops(v, tokens, head, carry, i);
        return;
      }
      ghost var before := head;
      head := head + [tok];
      i := i + 1;
      if !Attached(tok) && KeyOf(tok) in v.valueFlags && i < |tokens| && !Dashed(tokens[i]) {
        head := head + [tokens[i]];
        i := i + 1;
      }
      ghost var p := FirstPart(v, tokens[at..]);
      FlagStretch(v, tokens, at);
      assert head == before + tokens[at..i];
      ScanFlag(v, tokens, before, carry, at, i, p);
    }
    ScanStops(v, tokens, head, carry, i);
  }

  lemma ScanStarts(v: Vocabulary, tokens: seq<string>)
    ensures Scanned(v, tokens, [], [], 0)
  {
    assert tokens[0..] == tokens;
    EmptyAppend(FlagTokens(LeadRoles(v, tokens)));
    EmptyAppend(AtomTokens(LeadRoles(v, tokens)));
  }

  /** Without multi-word flags, a flag spans itself and at most the next token. */
  lemma FlagStretch(v: Vocabulary, tokens: seq<string>, i: nat)
    requires i < |tokens| && LongFlag(tokens[i]) && v.multiWord == {}
    ensures var n := if !Attached(tokens[i]) && KeyOf(tokens[i]) in v.valueFlags
                        && i + 1 < |tokens| && !Dashed(tokens[i + 1]) then 2 else 1;
            i + n <= |tokens| && tokens[i..i + n] == Tokens(FirstPart(v, tokens[i..]))
  {
    hide EqualsAt;
    var rest := tokens[i..];
    assert rest[0] == tokens[i] && rest[1..] == tokens[i + 1..];
    var m := |Tokens(FirstPart(v, rest))|;
    DropPast(tokens, i, i + m);
  }

  /** `_split_leading_flags`: the parse of the leading flags, and the question text. */
  method SplitLeadingFlags(v: Vocabulary, tail: string) returns (parsed: TailParse, question: string)
    requires v.multiWord == {}
    ensures parsed == ParseTail(v, FlagTokens(LeadRoles(v, Split(tail))))
    ensures question == Join(" ", AtomTokens(LeadRoles(v, Split(tail))) + Remaining(v, Split(tail)))
  {
    hide Split, LeadRoles, Remaining, FlagTokens, AtomTokens, ParseTail;
    var tokens := Split(tail);
    var head, carry, i := ScanLeading(v, tokens);
    SplitGivesWords(tail);
    LeadTokensAreWords(v, tokens);
    SplitOfJoin(head);
    parsed := SplitTail(v, Join(" ", head));
    question := Join(" ", carry + tokens[i..]);
  }

  lemma {:induction false} LeadTokensAreWords(v: Vocabulary, tokens: seq<string>)
    requires AllWords(tokens)
    ensures AllWords(FlagTokens(LeadRoles(v, tokens))) && AllWords(AtomTokens(LeadRoles(v, tokens)))
    ensures AllWords(Remaining(v, tokens))
    decreases |tokens|
  {
    hide FirstPart, Tokens, IsAtom, LongFlag, Word;
    if !StopsAt(tokens) && tokens[0] != "--" {
      var r := if LongFlag(tokens[0]) then Flag(FirstPart(v, tokens)) else Atom(tokens[0]);
      var n := |RoleTokens(r)|;
      LeadTokensAreWords(v, tokens[n..]);
      TakeTwo(tokens, n, |tokens|);
      ConsTail(r, LeadRoles(v, tokens[n..]));
    } else {
      MarkerAlone();
    }
  }

  // ---------------------------------------------------------------------------------------------
  // Every token has a role
  // ---------------------------------------------------------------------------------------------

  lemma {:induction false} LeadCovers(v: Vocabulary, tokens: seq<string>)
    ensures AllTokens(LeadRoles(v, tokens)) + Remaining(v, tokens) == tokens
    decreases |tokens|
  {
    hide FirstPart, Tokens, IsAtom, LongFlag;
    if StopsAt(tokens) {
      EmptyAppend(tokens);
    } else if tokens[0] == "--" {
      HeadTail(tokens);
      assert [Marker][1..] == [] && AllTokens([Marker]) == ["--"] + [];
    } else {
      var r := if LongFlag(tokens[0]) then Flag(FirstPart(v, tokens)) else Atom(tokens[0]);
      var n := |RoleTokens(r)|;
      LeadCovers(v, tokens[n..]);
      HeadTail(tokens);
      ConsTail(r, LeadRoles(v, tokens[n..]));
      TakeTwo(tokens, n, |tokens|);
      DropTake(tokens, n, |tokens|);
      AppendAssoc(RoleTokens(r), AllTokens(LeadRoles(v, tokens[n..])), Remaining(v, tokens[n..]));
    }
  }

  lemma {:induction false} AllTokensAppend(a: seq<Role>, b: seq<Role>)
    ensures AllTokens(a + b) == AllTokens(a) + AllTokens(b)
    ensures AtomTokens(a + b) == AtomTokens(a) + AtomTokens(b)
    ensures ProseTokens(a + b) == ProseTokens(a) + ProseTokens(b)
    ensures FlagTokens(a + b) == FlagTokens(a) + FlagTokens(b)
  {
    if a == [] {
      EmptyAppend(b);
      EmptyAppend(AllTokens(b));
      EmptyAppend(AtomTokens(b));
      EmptyAppend(ProseTokens(b));
      EmptyAppend(FlagTokens(b));
    } else {
      hide Tokens, RoleTokens;
      var r, rest := a[0], a[1..];
      ConsAppend(a, b);
      ConsTail(r, rest + b);
      AllTokensAppend(rest, b);
      AppendAssoc(RoleTokens(r), AllTokens(rest), AllTokens(b));
      AppendAssoc(if r.Flag? then Tokens(r.part) else [], FlagTokens(rest), FlagTokens(b));
      AppendAssoc(if r.Atom? then [r.tok] else [], AtomTokens(rest), AtomTokens(b));
      AppendAssoc(if r.Prose? then [r.tok] else [], ProseTokens(rest), ProseTokens(b));
    }
  }

  lemma {:induction false} ProseCovers(tokens: seq<string>)
    ensures AllTokens(AsProse(tokens)) == tokens && ProseTokens(AsProse(tokens)) == tokens
    ensures AtomTokens(AsProse(tokens)) == [] && FlagTokens(AsProse(tokens)) == []
  {
    if tokens != [] {
      ProseCovers(tokens[1..]);
      assert AsProse(tokens)[1..] == AsProse(tokens[1..]);
      HeadTail(tokens);
    }
  }

  lemma {:induction false} QuestionCovers(tokens: seq<string>)
    ensures var roles, n := QuestionRoles(tokens), AtomRun(tokens);
            && AllTokens(roles) == tokens && FlagTokens(roles) == []
            && AtomTokens(roles) == tokens[..n] && ProseTokens(roles) == tokens[n..]
  {
    hide IsAtom, AsProse, AllTokens, FlagTokens, AtomTokens, ProseTokens, RoleTokens;
    if tokens == [] {
      ProseCovers(tokens);
      NoRoles();
    } else if IsAtom(tokens[0]) {
      var rest, n := tokens[1..], AtomRun(tokens[1..]);
      QuestionCovers(rest);
      AtomInFront(tokens[0], QuestionRoles(rest));
      HeadTail(tokens);
      DropDrop(tokens, 1, n);
      HeadTake(tokens, n);
    } else {
      ProseCovers(tokens);
      DropTake(tokens, 0, 0);
      TakeAll(tokens);
    }
  }

  lemma NoRoles()
    ensures AllTokens([]) == [] && FlagTokens([]) == [] && AtomTokens([]) == [] && ProseTokens([]) == []
  {
  }

  lemma AtomInFront(tok: string, roles: seq<Role>)
    ensures var all := [Atom(tok)] + roles;
            && AllTokens(all) == [tok] + AllTokens(roles) && FlagTokens(all) == FlagTokens(roles)
            && AtomTokens(all) == [tok] + AtomTokens(roles) && ProseTokens(all) == ProseTokens(roles)
  {
    ConsTail(Atom(tok), roles);
    EmptyAppend(FlagTokens(roles));
    EmptyAppend(ProseTokens(roles));
  }

  /** The roles of a tail are exactly its tokens, in order. */
  lemma RolesCoverTail(v: Vocabulary, tokens: seq<string>)
    ensures AllTokens(GroundRoles(v, tokens)) == tokens
  {
    hide LeadRoles, Remaining, QuestionRoles, AllTokens;
    LeadCovers(v, tokens);
    QuestionCovers(Remaining(v, tokens));
    AllTokensAppend(LeadRoles(v, tokens), QuestionRoles(Remaining(v, tokens)));
  }

  /** A role of the leading run: a long flag with at most one value token of its own, an atom, or the marker. */
  ghost predicate Leads(v: Vocabulary, r: Role) {
    match r
    case Flag(part) =>
      && (part.Assign? || part.Switch? || part.Valued?) && LongFlag(part.tok)
      && (part.Valued? ==> TakesValue(v, KeyOf(part.tok)) && forall t :: t in part.taken ==> !Dashed(t))
    case Atom(tok) => IsAtom(tok)
    case Marker => true
    case Prose(_) => false
  }

  /** Flags and atoms, then at most one marker, then atoms, then prose to the end. */
  ghost predicate Ordered(roles: seq<Role>) {
    && (forall i, j :: 0 <= i < j < |roles| && roles[i].Prose? ==> roles[j].Prose?)
    && (forall i, j :: 0 <= i < j < |roles| && roles[i].Marker? ==> roles[j].Atom? || roles[j].Prose?)
  }

  lemma {:induction false} LeadIsLead(v: Vocabulary, tokens: seq<string>, i: nat)
    requires i < |LeadRoles(v, tokens)|
    ensures var lead := LeadRoles(v, tokens); Leads(v, lead[i]) && (lead[i].Marker? ==> i == |lead| - 1)
    decreases |tokens|
  {
    hide FirstPart, Tokens, IsAtom, LongFlag, Leads;
    LeadRole(v, tokens);
    if tokens[0] != "--" {
      var r := if LongFlag(tokens[0]) then Flag(FirstPart(v, tokens)) else Atom(tokens[0]);
      var rest := tokens[|RoleTokens(r)|..];
      assert LeadRoles(v, tokens) == [r] + LeadRoles(v, rest);
      if i > 0 {
        LeadIsLead(v, rest, i - 1);
        assert LeadRoles(v, tokens)[i] == LeadRoles(v, rest)[i - 1];
      }
    }
  }

  /** Unless a marker ends it, the leading run stops only at a prose word. */
  lemma {:induction false} LeadStops(v: Vocabulary, tokens: seq<string>)
    ensures var lead := LeadRoles(v, tokens);
            StopsAt(Remaining(v, tokens)) || (lead != [] && lead[|lead| - 1] == Marker)
    decreases |tokens|
  {
    hide FirstPart, Tokens, IsAtom, LongFlag;
    if !StopsAt(tokens) && tokens[0] != "--" {
      var r := if LongFlag(tokens[0]) then Flag(FirstPart(v, tokens)) else Atom(tokens[0]);
      var rest := tokens[|RoleTokens(r)|..];
      LeadStops(v, rest);
      assert LeadRoles(v, tokens) == [r] + LeadRoles(v, rest);
    }
  }

  lemma LeadRole(v: Vocabulary, tokens: seq<string>)
    requires tokens != []
    ensures Leads(v, Marker)
    ensures LongFlag(tokens[0]) ==> Leads(v, Flag(FirstPart(v, tokens)))
    ensures !StopsAt(tokens) && tokens[0] != "--" && !LongFlag(tokens[0]) ==> Leads(v, Atom(tokens[0]))
  {
    hide IsAtom, EqualsAt;
    if LongFlag(tokens[0]) { FirstPartFits(v, tokens); }
  }

  lemma {:induction false} QuestionIsQuestion(tokens: seq<string>)
    ensures var roles, n := QuestionRoles(tokens), AtomRun(tokens);
            && |roles| == |tokens|
            && (forall i :: 0 <= i < n ==> roles[i] == Atom(tokens[i]) && IsAtom(tokens[i]))
            && (forall i :: n <= i < |roles| ==> roles[i] == Prose(tokens[i]))
  {
    hide IsAtom;
    if tokens != [] && IsAtom(tokens[0]) {
      QuestionIsQuestion(tokens[1..]);
      var rest := QuestionRoles(tokens[1..]);
      assert forall i :: 1 <= i < |tokens| ==>
             QuestionRoles(tokens)[i] == rest[i - 1] && tokens[i] == tokens[1..][i - 1];
    }
  }

  /**
   * Reading a `ground` tail from the left: flags with their values and filter atoms, then perhaps one
   * `--` and more atoms, and from the first prose word to the end nothing but prose.
   */
  lemma RolesAreOrdered(v: Vocabulary, tokens: seq<string>)
    ensures var roles := GroundRoles(v, tokens);
            Ordered(roles) && forall i :: 0 <= i < |roles| ==> roles[i].Prose? || Leads(v, roles[i])
  {
    hide LeadRoles, Remaining, QuestionRoles, IsAtom, LongFlag, EqualsAt, TakesValue, Dashed;
    var lead, question := LeadRoles(v, tokens), QuestionRoles(Remaining(v, tokens));
    QuestionIsQuestion(Remaining(v, tokens));
    forall i | 0 <= i < |lead| ensures Leads(v, lead[i]) && !lead[i].Prose? && (lead[i].Marker? ==> i == |lead| - 1) {
      LeadIsLead(v, tokens, i);
    }
    assert forall i :: 0 <= i < |question| ==> question[i].Prose? || (Leads(v, question[i]) && !question[i].Marker?);
    OrderedTogether(lead, question);
    var roles := lead + question;
    assert forall i :: 0 <= i < |roles| ==> roles[i] == if i < |lead| then lead[i] else question[i - |lead|];
  }

  lemma OrderedTogether(lead: seq<Role>, question: seq<Role>)
    requires forall i :: 0 <= i < |lead| ==> !lead[i].Prose? && (lead[i].Marker? ==> i == |lead| - 1)
    requires forall i, j :: 0 <= i < j < |question| && question[i].Prose? ==> question[j].Prose?
    requires forall i :: 0 <= i < |question| ==> question[i].Atom? || question[i].Prose?
    ensures Ordered(lead + question)
  {
    var roles := lead + question;
    assert forall i :: 0 <= i < |roles| ==> roles[i] == if i < |lead| then lead[i] else question[i - |lead|];
  }

  // ---------------------------------------------------------------------------------------------
  // The leading flags parse cleanly
  // ---------------------------------------------------------------------------------------------

  function FlagsOf(roles: seq<Role>): seq<Part> {
    if roles == [] then [] else (if roles[0].Flag? then [roles[0].part] else []) + FlagsOf(roles[1..])
  }

  ghost predicate IsFlag(p: Part) {
    (p.Assign? || p.Switch? || p.Valued?) && LongFlag(p.tok)
  }

  lemma FlagsStartDashed(parts: seq<Part>)
    requires forall p :: p in parts ==> IsFlag(p)
    ensures Flatten(parts) == [] || Dashed(Flatten(parts)[0])
  {
    if parts != [] { assert IsFlag(parts[0]); }
  }

  /** A part that fits before the tokens that followed it also fits before the next flag. */
  lemma FitsBeforeFlag(v: Vocabulary, p: Part, after: seq<string>, flags: seq<string>)
    requires FitsBefore(v, p, after) && IsFlag(p) && (flags == [] || Dashed(flags[0]))
    ensures FitsBefore(v, p, flags)
  {
    hide Dashed, EqualsAt;
  }

  lemma {:induction false} FlagsAreWellFormed(v: Vocabulary, tokens: seq<string>)
    ensures var parts := FlagsOf(LeadRoles(v, tokens));
            && WellFormed(v, parts) && Flatten(parts) == FlagTokens(LeadRoles(v, tokens))
            && forall p :: p in parts ==> IsFlag(p)
    decreases |tokens|
  {
    hide FirstPart, Tokens, IsAtom, FitsBefore, IsFlag, LongFlag;
    if StopsAt(tokens) {
    } else if tokens[0] == "--" {
      MarkerAlone();
      assert [Marker][1..] == [];
    } else if LongFlag(tokens[0]) {
      var p := FirstPart(v, tokens);
      var rest := tokens[|Tokens(p)|..];
      FlagsAreWellFormed(v, rest);
      ConsTail(Flag(p), LeadRoles(v, rest));
      var flags := FlagsOf(LeadRoles(v, rest));
      ConsTail(p, flags);
      FirstPartFits(v, tokens);
      FirstIsFlag(v, tokens);
      FlagsStartDashed(flags);
      FitsBeforeFlag(v, p, rest, Flatten(flags));
    } else {
      FlagsAreWellFormed(v, tokens[1..]);
      ConsTail(Atom(tokens[0]), LeadRoles(v, tokens[1..]));
      EmptyAppend(FlagsOf(LeadRoles(v, tokens[1..])));
      EmptyAppend(FlagTokens(LeadRoles(v, tokens[1..])));
    }
  }

  lemma FirstIsFlag(v: Vocabulary, tokens: seq<string>)
    requires tokens != [] && LongFlag(tokens[0])
    ensures IsFlag(FirstPart(v, tokens))
  {
    hide EqualsAt;
  }

  lemma {:induction false} FlagsCollectCleanly(v: Vocabulary, r: TailParse, parts: seq<Part>)
    requires forall p :: p in parts ==> IsFlag(p)
    ensures Collect(v, r, parts).positionals == r.positionals && Collect(v, r, parts).repurposed == r.repurposed
    decreases parts
  {
    hide IsFlag, Add, Flatten;
    if parts != [] {
      FlagsStartDashed(parts[1..]);
      FlagAddsCleanly(v, r, parts[0], Flatten(parts[1..]));
      FlagsCollectCleanly(v, Add(v, r, parts[0], Flatten(parts[1..])), parts[1..]);
    }
  }

  lemma FlagAddsCleanly(v: Vocabulary, r: TailParse, p: Part, after: seq<string>)
    requires IsFlag(p) && (after == [] || Dashed(after[0]))
    ensures Add(v, r, p, after).positionals == r.positionals && Add(v, r, p, after).repurposed == r.repurposed
  {
    hide Dashed, LongFlag, EqualsAt, Join;
  }

  /** The leading flags are read exactly as the scan took them, leaving no positional and no repurposed word. */
  lemma LeadingParseIsClean(v: Vocabulary, tokens: seq<string>)
    ensures var parsed := ParseTail(v, FlagTokens(LeadRoles(v, tokens)));
            parsed.positionals == [] && parsed.repurposed == []
    ensures Parse(v, FlagTokens(LeadRoles(v, tokens))) == FlagsOf(LeadRoles(v, tokens))
  {
    hide LeadRoles, FlagTokens, FlagsOf, Parse, Collect, Flatten, WellFormed, IsFlag;
    var parts := FlagsOf(LeadRoles(v, tokens));
    FlagsAreWellFormed(v, tokens);
    ParseIsUnique(v, parts);
    FlagsCollectCleanly(v, EMPTY, parts);
  }

  // ---------------------------------------------------------------------------------------------
  // The whole prompt
  // ---------------------------------------------------------------------------------------------

  /** What is wrong with a `--top_k`, if anything. */
  datatype TopKNote = Fine | NotAnInteger(raw: string) | Clamped(requested: int)

  datatype TopK = TopK(value: int, note: TopKNote)

  /** What the body reports about the flags it read. */
  datatype Notes = Notes(topK: TopKNote, unknown: set<string>, ignored: seq<(string, string)>)

  datatype Ground =
    | Refused(missing: seq<string>)
    | NoQuestion(notes: Notes)
    | Search(query: string, filters: Filters, topK: int, notes: Notes, strayFlags: bool)

  const GROUND := Vocabulary({"top_k"}, {}, Some({"top_k"}))

  /** The number of entries asked for: 3 by default, and always from 1 to 10. */
  function TopKOf(parsed: TailParse, readInt: string -> Option<int>): (k: TopK)
    ensures 1 <= k.value <= 10
    ensures k.note.Clamped? ==> k.note.requested < 1 || k.note.requested > 10
  {
    if "top_k" !in parsed.values then TopK(3, Fine)
    else
      match readInt(parsed.values["top_k"])
      case None => TopK(3, NotAnInteger(parsed.values["top_k"]))
      case Some(n) => if n < 1 then TopK(1, Clamped(n)) else if n > 10 then TopK(10, Clamped(n)) else TopK(n, Fine)
  }

  function NotesOf(parsed: TailParse, readInt: string -> Option<int>): Notes {
    Notes(TopKOf(parsed, readInt).note, parsed.unknown, parsed.ignoredValues)
  }

  /** Some word of the question looks like a flag. */
  predicate HasDashed(tokens: seq<string>) {
    exists i :: 0 <= i < |tokens| && Dashed(tokens[i])
  }

  /** What a `ground` tail asks for, by the roles of its tokens; `readInt` is Python's `int`. */
  function GroundOf(tokens: seq<string>, readInt: string -> Option<int>): Ground {
    var roles := GroundRoles(GROUND, tokens);
    var parsed := ParseTail(GROUND, FlagTokens(roles));
    if parsed.missingValues != [] then Refused(parsed.missingValues)
    else if ProseTokens(roles) == [] then NoQuestion(NotesOf(parsed, readInt))
    else Search(Join(" ", ProseTokens(roles)), FiltersOf(AtomTokens(roles)),
                TopKOf(parsed, readInt).value, NotesOf(parsed, readInt), HasDashed(ProseTokens(roles)))
  }

  function Distance(a: int, b: int): nat {
    if a < b then b - a else a - b
  }

  /**
   * `top_k` is 3 if the leading flags never gave it, or last gave it no integer; otherwise it is the number
   * from 1 to 10 nearest to the one they last gave. Any difference is noted.
   */
  lemma TopKIsLastGiven(tokens: seq<string>, readInt: string -> Option<int>)
    ensures var flags := FlagTokens(LeadRoles(GROUND, tokens));
            var given := AllGivenTo(GROUND, Parse(GROUND, flags), "top_k");
            var k := TopKOf(ParseTail(GROUND, flags), readInt);
            if given == [] then k == TopK(3, Fine)
            else
              var raw := given[|given| - 1];
              match readInt(raw)
              case None => k == TopK(3, NotAnInteger(raw))
              case Some(n) =>
                && (forall m :: 1 <= m <= 10 ==> Distance(k.value, n) <= Distance(m, n))
                && k.note == if k.value == n then Fine else Clamped(n)
  {
    hide Parse, Collect, AllGivenTo, LeadRoles, FlagTokens;
    var flags := FlagTokens(LeadRoles(GROUND, tokens));
    ParseIsCoherent(GROUND, flags);
    ParseGathersInOrder(GROUND, flags, "top_k");
  }

  /** The filters of a search mean its atoms, which are all the atoms in front of the prose. */
  lemma GroundFiltersMean(tokens: seq<string>, readInt: string -> Option<int>)
    requires GroundOf(tokens, readInt).Search?
    ensures var ts := AtomTokens(GroundRoles(GROUND, tokens));
            AllAtoms(ts) && Means(ts, GroundOf(tokens, readInt).filters)
  {
    hide LeadRoles, Remaining, ProseTokens, FlagTokens, IsAtom, FiltersOf, ParseTail, Means, QuestionRoles;
    GroundAtoms(GROUND, tokens);
    FiltersMean(AtomTokens(GroundRoles(GROUND, tokens)));
  }

  lemma GroundAtoms(v: Vocabulary, tokens: seq<string>)
    ensures AllAtoms(AtomTokens(GroundRoles(v, tokens)))
  {
    hide LeadRoles, Remaining, IsAtom, QuestionRoles;
    var lead, rest := LeadRoles(v, tokens), Remaining(v, tokens);
    LeadAtoms(v, tokens);
    QuestionCovers(rest);
    AllTokensAppend(lead, QuestionRoles(rest));
    assert forall t :: t in AtomTokens(lead) ==> IsAtom(t);
    assert forall t :: t in AtomTokens(QuestionRoles(rest)) ==> IsAtom(t);
  }

  /** The guard shared by the prompts: a missing value, or a repurposed word among the positionals. */
  predicate Unclean(parsed: TailParse) {
    parsed.missingValues != [] || exists p :: p in parsed.repurposed && p.1 in parsed.positionals
  }

  /** Does any word of the question start with two dashes? */
  method FindsDashed(tokens: seq<string>) returns (found: bool)
    ensures found == HasDashed(tokens)
  {
    hide Dashed;
    for i := 0 to |tokens|
      invariant forall j :: 0 <= j < i ==> !Dashed(tokens[j])
    {
      if Dashed(tokens[i]) { return true; }
    }
    found := false;
  }

  /** `ground_prompt`, up to rendering: leading flags, `top_k`, then filters, then the question. */
  method GroundPrompt(tail: string, readInt: string -> Option<int>) returns (g: Ground)
    ensures g == GroundOf(Split(tail), readInt)
  {
    hide Split, ParseTail, LeadRoles, Remaining, FlagTokens, AtomTokens, ProseTokens, FiltersOf, IsFiltered,
         GroundRoles,
         HasDashed;
    var parsed, question := SplitLeadingFlags(GROUND, tail);
    var topK, note := 3, Fine;
    if "top_k" in parsed.values {
      var raw := parsed.values["top_k"];
      var requested := readInt(raw);
      if requested.None? {
        note := NotAnInteger(raw);
      } else {
        topK := if requested.value < 1 then 1 else if requested.value > 10 then 10 else requested.value;
        if topK != requested.value { note := Clamped(requested.value); }
      }
    }
    var query, filters := ParseQuestionFilters(question);
    SplitGivesWords(tail);
    QuestionOfGround(GROUND, Split(tail), question, query, filters);
    LeadingParseIsClean(GROUND, Split(tail));
    assert parsed.positionals == [] && parsed.repurposed == [];
    var notes := Notes(note, parsed.unknown, parsed.ignoredValues);
    if Unclean(parsed) { return Refused(parsed.missingValues); }
    if query == "" { return NoQuestion(notes); }
    StrayFlags(GROUND, Split(tail), question);
    var stray := FindsDashed(Split(question));
    g := Search(query, filters, topK, notes, stray);
  }

  /** Filter atoms never look like flags, so only prose does. */
  lemma StrayFlags(v: Vocabulary, tokens: seq<string>, question: string)
    requires AllWords(tokens)
    requires question == Join(" ", AtomTokens(LeadRoles(v, tokens)) + Remaining(v, tokens))
    ensures HasDashed(Split(question)) == HasDashed(ProseTokens(GroundRoles(v, tokens)))
  {
    hide Split, LeadRoles, Remaining, AtomTokens, ProseTokens, AllTokens, FlagTokens, QuestionRoles, IsAtom, Join,
         AtomRun;
    var lead, rest := LeadRoles(v, tokens), Remaining(v, tokens);
    var atoms := AtomTokens(lead);
    LeadTokensAreWords(v, tokens);
    LeadAtoms(v, tokens);
    WordsTogether(atoms, rest);
    SplitOfJoin(atoms + rest);
    QuestionCovers(rest);
    AllTokensAppend(lead, QuestionRoles(rest));
    EmptyAppend(ProseTokens(QuestionRoles(rest)));
    AtomsAreNotDashed(atoms, rest);
  }

  lemma AtomsAreNotDashed(atoms: seq<string>, rest: seq<string>)
    requires forall t :: t in atoms ==> IsAtom(t)
    ensures HasDashed(atoms + rest) == HasDashed(rest[AtomRun(rest)..])
  {
    hide IsAtom, Dashed;
    var n := AtomRun(rest);
    forall t | IsAtom(t) ensures !Dashed(t) { AtomIsNotDashed(t); }
    var all := atoms + rest;
    assert forall i :: 0 <= i < |all| ==> all[i] == if i < |atoms| then atoms[i] else rest[i - |atoms|];
    if i :| 0 <= i < |all| && Dashed(all[i]) {
      assert rest[n..][i - |atoms| - n] == all[i];
    }
    if i :| 0 <= i < |rest| - n && Dashed(rest[n..][i]) {
      assert all[|atoms| + n + i] == rest[n..][i];
    }
  }

  lemma AtomIsNotDashed(t: string)
    requires IsAtom(t)
    ensures !Dashed(t)
  {
  }

  lemma {:induction false} AtomRunAppend(a: seq<string>, b: seq<string>)
    requires forall i :: 0 <= i < |a| ==> IsAtom(a[i])
    ensures AtomRun(a + b) == |a| + AtomRun(b)
    ensures (a + b)[..|a| + AtomRun(b)] == a + b[..AtomRun(b)] && (a + b)[|a| + AtomRun(b)..] == b[AtomRun(b)..]
  {
    hide IsAtom;
    var n := AtomRun(b);
    assert forall i :: |a| <= i < |a| + n ==> (a + b)[i] == b[i - |a|];
    assert n < |b| ==> (a + b)[|a| + n] == b[n];
    AtomRunIs(a + b, |a| + n);
  }

  lemma {:induction false} LeadAtoms(v: Vocabulary, tokens: seq<string>)
    ensures forall t :: t in AtomTokens(LeadRoles(v, tokens)) ==> IsAtom(t)
    ensures ProseTokens(LeadRoles(v, tokens)) == []
    decreases |tokens|
  {
    hide FirstPart, Tokens, IsAtom, LongFlag;
    if StopsAt(tokens) {
    } else if tokens[0] == "--" {
      MarkerAlone();
      assert [Marker][1..] == [];
    } else {
      var r := if LongFlag(tokens[0]) then Flag(FirstPart(v, tokens)) else Atom(tokens[0]);
      var rest := LeadRoles(v, tokens[|RoleTokens(r)|..]);
      LeadAtoms(v, tokens[|RoleTokens(r)|..]);
      ConsTail(r, rest);
      EmptyAppend(AtomTokens(rest));
      EmptyAppend(ProseTokens(rest));
    }
  }

  /** The filters are all the atoms before the first prose word, and the query is the prose, word for word. */
  lemma QuestionOfGround(v: Vocabulary, tokens: seq<string>, question: string, query: string, filters: Filters)
    requires AllWords(tokens)
    requires question == Join(" ", AtomTokens(LeadRoles(v, tokens)) + Remaining(v, tokens))
    requires IsFiltered(question, query, filters)
    ensures var roles := GroundRoles(v, tokens);
            && FlagTokens(roles) == FlagTokens(LeadRoles(v, tokens))
            && filters == FiltersOf(AtomTokens(roles)) && query == Join(" ", ProseTokens(roles))
            && (query == "" <==> ProseTokens(roles) == [])
  {
    hide Split, LeadRoles, Remaining, FlagTokens, AtomTokens, ProseTokens, AllTokens, FiltersOf, QuestionRoles, AtomRun,
         IsAtom, Strip, IsSpace, Join, AllWords, QueryStartsAt;
    var lead, rest := LeadRoles(v, tokens), Remaining(v, tokens);
    var atoms := AtomTokens(lead);
    LeadTokensAreWords(v, tokens);
    LeadAtoms(v, tokens);
    WordsTogether(atoms, rest);
    SplitOfJoin(atoms + rest);
    QuestionCovers(rest);
    AtomRunAppend(atoms, rest);
    AllTokensAppend(lead, QuestionRoles(rest));
    EmptyEnd(FlagTokens(lead));
    EmptyAppend(ProseTokens(QuestionRoles(rest)));
    QueryIsJoined(atoms + rest, question, query);
  }

  lemma WordsTogether(a: seq<string>, b: seq<string>)
    requires AllWords(a) && AllWords(b)
    ensures AllWords(a + b)
  {
    hide Word;
  }

  lemma QueryIsJoined(ws: seq<string>, question: string, query: string)
    requires AllWords(ws) && question == Join(" ", ws) && Split(question) == ws
    requires exists start :: QueryStartsAt(question, query, AtomRun(ws), start)
    ensures var prose := ws[AtomRun(ws)..]; query == Join(" ", prose) && (query == "" <==> prose == [])
  {
    hide Split, AtomRun, IsAtom, Strip, IsSpace, Join;
    var start :| QueryStartsAt(question, query, AtomRun(ws), start);
    SuffixOfJoin(ws, start);
    NoWordsNoText(Split(query));
  }

  lemma SuffixOfJoin(ws: seq<string>, start: nat)
    requires AllWords(ws)
    requires start <= |Join(" ", ws)| && (start < |Join(" ", ws)| ==> !IsSpace(Join(" ", ws)[start]))
    ensures var t := Strip(Join(" ", ws)[start..]); t == Join(" ", Split(t)) && AllWords(Split(t))
  {
    hide IsSpace, Split;
    var s := Join(" ", ws)[start..];
    SplitGivesWords(s);
    SplitOfStrip(s);
    EmptyText();
    if s != "" {
      assert s[0] == Join(" ", ws)[start];
      JoinSuffix(ws, start);
      JoinEndsInWord(Split(s));
      assert Margin(s) == 0 && s[0..] == s && Extent(s) == |s| && s[..|s|] == s;
    } else {
      assert Strip("") == "";
    }
  }

  lemma NoWordsNoText(ws: seq<string>)
    requires AllWords(ws)
    ensures Join(" ", ws) == "" <==> ws == []
  {
    if ws != [] { JoinEndsInWord(ws); }
  }
}
