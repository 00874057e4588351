/** What every parsed tail promises. */
module TailInvariants {
  import opened Sequences
  import opened Text
  import opened TailGrammar

  // ---------------------------------------------------------------------------------------------
  // Invariants of every parse
  // ---------------------------------------------------------------------------------------------

  ghost predicate Coherent(v: Vocabulary, r: TailParse) {
    KeepsLast(v, r) && ReportsAreOn(v, r) && UnknownIsExact(v, r)
  }

  /** `values` holds the last of `repeats`, over the same keys, all of them value flags. */
  ghost predicate KeepsLast(v: Vocabulary, r: TailParse) {
    && r.values.Keys == r.repeats.Keys
    && (forall k :: k in r.repeats ==> TakesValue(v, k) && IsLast(r.values[k], r.repeats[k]))
  }

  predicate IsLast(value: string, repeats: seq<string>) {
    repeats != [] && value == repeats[|repeats| - 1]
  }

  /** Every reported problem belongs to a flag that is on, of the kind the report is about. */
  ghost predicate ReportsAreOn(v: Vocabulary, r: TailParse) {
    && (forall k :: k in r.missingValues ==> k in r.booleans && TakesValue(v, k))
    && (forall p :: p in r.ignoredValues ==> p.0 in r.booleans && !TakesValue(v, p.0))
    && (forall p :: p in r.repurposed ==> p.0 in r.booleans && !Declared(v, p.0) && !Dashed(p.1))
  }

  /** `unknown` is exactly the undeclared flags that are on. */
  ghost predicate UnknownIsExact(v: Vocabulary, r: TailParse) {
    && (forall k :: k in r.unknown ==> Unknown(v, k) && r.FlagOn(k))
    && (forall k :: r.FlagOn(k) && Unknown(v, k) ==> k in r.unknown)
  }

  lemma RecordKeeps(v: Vocabulary, r: TailParse, key: string, value: string)
    requires Coherent(v, r) && TakesValue(v, key)
    ensures Coherent(v, NoteUnknown(v, Record(r, key, value), key))
  {
    hide Dashed, TakesValue, Unknown, KeepsLast, UnknownIsExact, TailParse.RepeatsOf;
    RecordKeepsLast(v, r, key, value);
    RecordNotes(v, r, key, value);
  }

  lemma RecordKeepsLast(v: Vocabulary, r: TailParse, key: string, value: string)
    requires KeepsLast(v, r) && TakesValue(v, key)
    ensures KeepsLast(v, NoteUnknown(v, Record(r, key, value), key))
  {
    hide Dashed, TakesValue, Unknown, TailParse.RepeatsOf;
  }

  lemma RecordNotes(v: Vocabulary, r: TailParse, key: string, value: string)
    requires UnknownIsExact(v, r)
    ensures UnknownIsExact(v, NoteUnknown(v, Record(r, key, value), key))
  {
    hide Dashed, TakesValue, Unknown, TailParse.RepeatsOf;
  }

  lemma AddKeeps(v: Vocabulary, r: TailParse, p: Part, after: seq<string>)
    requires Coherent(v, r) && FitsBefore(v, p, after)
    ensures Coherent(v, Add(v, r, p, after))
  {
    hide Dashed, EqualsAt, Coherent;
    EmptyEnd(r.missingValues);
    EmptyEnd(r.ignoredValues);
    EmptyEnd(r.repurposed);
    match p
    case Valued(tok, taken) => RecordKeeps(v, r, KeyOf(tok), Join(" ", taken));
    case Assign(tok) =>
      if TakesValue(v, KeyOf(tok)) { RecordKeeps(v, r, KeyOf(tok), ValueOf(tok)); }
      else { TurnOnKeeps(v, r, KeyOf(tok), [], [(KeyOf(tok), ValueOf(tok))], []); }
    case Switch(tok) =>
      var key := KeyOf(tok);
      if TakesValue(v, key) { TurnOnKeeps(v, r, key, [key], [], []); }
      else if after != [] && !Dashed(after[0]) && !Declared(v, key) {
        TurnOnKeeps(v, r, key, [], [], [(key, after[0])]);
      } else { TurnOnKeeps(v, r, key, [], [], []); }
    case Short(tok) => if tok != "" { TurnOnKeeps(v, r, tok[1..], [], [], []); }
    case Positional(tok) => MorePositionals(v, r, [tok]);
    case Rest(tokens) => MorePositionals(v, r, tokens);
  }

  lemma MorePositionals(v: Vocabulary, r: TailParse, more: seq<string>)
    requires Coherent(v, r)
    ensures Coherent(v, r.(positionals := r.positionals + more))
  {
  }

  lemma TurnOnKeeps(v: Vocabulary, r: TailParse, key: string,
                    missing: seq<string>, ignored: seq<(string, string)>, repurposed: seq<(string, string)>)
    requires Coherent(v, r)
    requires forall k :: k in missing ==> k == key && TakesValue(v, k)
    requires forall p :: p in ignored ==> p.0 == key && !TakesValue(v, p.0)
    requires forall p :: p in repurposed ==> p.0 == key && !Declared(v, p.0) && !Dashed(p.1)
    ensures var s := r.(booleans := r.booleans + {key}, missingValues := r.missingValues + missing,
                        ignoredValues := r.ignoredValues + ignored, repurposed := r.repurposed + repurposed);
            Coherent(v, NoteUnknown(v, s, key))
  {
    hide Dashed;
  }

  lemma {:induction false} CollectKeeps(v: Vocabulary, r: TailParse, parts: seq<Part>)
    requires Coherent(v, r) && WellFormed(v, parts)
    ensures Coherent(v, Collect(v, r, parts))
    decreases parts
  {
    hide Coherent, Add, FitsBefore;
    if parts != [] {
      AddKeeps(v, r, parts[0], Flatten(parts[1..]));
      CollectKeeps(v, Add(v, r, parts[0], Flatten(parts[1..])), parts[1..]);
    }
  }

  /**
   * In every parse: `values` holds the last of `repeats` over the same keys; a missing or ignored value
   * always belongs to a flag that is on; a repurposed word follows an undeclared flag; and `unknown`
   * names exactly the undeclared flags that are on.
   */
  lemma ParseIsCoherent(v: Vocabulary, tokens: seq<string>)
    ensures Coherent(v, ParseTail(v, tokens))
  {
    hide Collect, Parse;
    ParseIsWellFormed(v, tokens);
    CollectKeeps(v, EMPTY, Parse(v, tokens));
  }

  // ---------------------------------------------------------------------------------------------
  // What the collections hold, part by part
  // ---------------------------------------------------------------------------------------------

  function PositionalsOf(parts: seq<Part>): seq<string> {
    if parts == [] then []
    else (match parts[0]
          case Positional(tok) => [tok]
          case Rest(tokens) => tokens
          case _ => []) + PositionalsOf(parts[1..])
  }

  function GivenTo(v: Vocabulary, p: Part, key: string): seq<string> {
    match p
    case Assign(tok) =>
      if LongFlag(tok) && Attached(tok) && KeyOf(tok) == key && TakesValue(v, key) then [ValueOf(tok)] else []
    case Valued(tok, taken) => if LongFlag(tok) && KeyOf(tok) == key then [Join(" ", taken)] else []
    case _ => []
  }

  function AllGivenTo(v: Vocabulary, parts: seq<Part>, key: string): seq<string> {
    if parts == [] then [] else GivenTo(v, parts[0], key) + AllGivenTo(v, parts[1..], key)
  }

  function MissingOf(v: Vocabulary, parts: seq<Part>): seq<string> {
    if parts == [] then []
    else (match parts[0]
          case Switch(tok) => if LongFlag(tok) && TakesValue(v, KeyOf(tok)) then [KeyOf(tok)] else []
          case _ => []) + MissingOf(v, parts[1..])
  }

  lemma AddOne(v: Vocabulary, r: TailParse, p: Part, after: seq<string>, key: string)
    ensures var s := Add(v, r, p, after);
            && s.positionals == r.positionals + PositionalsOf([p])
            && s.RepeatsOf(key) == r.RepeatsOf(key) + GivenTo(v, p, key)
            && s.missingValues == r.missingValues + MissingOf(v, [p])
  {
    hide Dashed, LongFlag, Attached, KeyOf, ValueOf, TakesValue, Declared, Unknown, Join;
    assert [p][1..] == [];
  }

  lemma {:induction false} CollectGathers(v: Vocabulary, r: TailParse, parts: seq<Part>, key: string)
    ensures var s := Collect(v, r, parts);
            && s.positionals == r.positionals + PositionalsOf(parts)
            && s.RepeatsOf(key) == r.RepeatsOf(key) + AllGivenTo(v, parts, key)
            && s.missingValues == r.missingValues + MissingOf(v, parts)
    decreases parts
  {
    if parts == [] {
      EmptyEnd(r.positionals);
      EmptyEnd(r.RepeatsOf(key));
      EmptyEnd(r.missingValues);
    } else {
      hide Add, GivenTo, PositionalsOf, MissingOf, AllGivenTo, TailParse.RepeatsOf, Flatten;
      var p, tail := parts[0], parts[1..];
      var next := Add(v, r, p, Flatten(tail));
      AddOne(v, r, p, Flatten(tail), key);
      CollectGathers(v, next, tail, key);
      GatherOne(v, parts, key);
      AppendAssoc(r.positionals, PositionalsOf([p]), PositionalsOf(tail));
      AppendAssoc(r.RepeatsOf(key), GivenTo(v, p, key), AllGivenTo(v, tail, key));
      AppendAssoc(r.missingValues, MissingOf(v, [p]), MissingOf(v, tail));
    }
  }

  lemma GatherOne(v: Vocabulary, parts: seq<Part>, key: string)
    requires parts != []
    ensures PositionalsOf(parts) == PositionalsOf([parts[0]]) + PositionalsOf(parts[1..])
    ensures MissingOf(v, parts) == MissingOf(v, [parts[0]]) + MissingOf(v, parts[1..])
    ensures AllGivenTo(v, parts, key) == GivenTo(v, parts[0], key) + AllGivenTo(v, parts[1..], key)
  {
    hide Dashed, EqualsAt, GivenTo;
    assert [parts[0]][1..] == [];
  }

  /** Positionals keep token order, and each value flag's repeats are its values in token order. */
  lemma ParseGathersInOrder(v: Vocabulary, tokens: seq<string>, key: string)
    ensures Flatten(Parse(v, tokens)) == tokens
    ensures ParseTail(v, tokens).positionals == PositionalsOf(Parse(v, tokens))
    ensures ParseTail(v, tokens).RepeatsOf(key) == AllGivenTo(v, Parse(v, tokens), key)
    ensures ParseTail(v, tokens).missingValues == MissingOf(v, Parse(v, tokens))
  {
    hide Collect, Parse, Flatten;
    ParseFlattens(v, tokens);
    CollectGathers(v, EMPTY, Parse(v, tokens), key);
  }

  // ---------------------------------------------------------------------------------------------
  // The end-of-flags marker
  // ---------------------------------------------------------------------------------------------

  /** A part that could be followed by nothing or by anything dashed keeps its meaning before `--`. */
  lemma FitsBeforeMarker(v: Vocabulary, r: TailParse, p: Part, after: seq<string>, rest: seq<string>)
    requires FitsBefore(v, p, after) && !p.Rest?
    ensures FitsBefore(v, p, after + (["--"] + rest))
    ensures Add(v, r, p, after + (["--"] + rest)) == Add(v, r, p, after)
  {
    hide EqualsAt;
    if after != [] { assert (after + (["--"] + rest))[0] == after[0]; }
  }

  lemma {:induction false} MarkerEnds(v: Vocabulary, r: TailParse, parts: seq<Part>, rest: seq<string>)
    requires WellFormed(v, parts) && forall p :: p in parts ==> !p.Rest?
    ensures WellFormed(v, parts + [Rest(rest)])
    ensures Flatten(parts + [Rest(rest)]) == Flatten(parts) + (["--"] + rest)
    ensures Collect(v, r, parts + [Rest(rest)]) ==
            var s := Collect(v, r, parts); s.(positionals := s.positionals + rest)
    decreases parts
  {
    var all := parts + [Rest(rest)];
    if parts == [] {
      assert all == [Rest(rest)] && all[1..] == [];
      assert Flatten(all) == ["--"] + rest;
    } else {
      hide FitsBefore, Add;
      var p, tail := parts[0], parts[1..];
      ConsAppend(parts, [Rest(rest)]);
      ConsTail(p, tail + [Rest(rest)]);
      FitsBeforeMarker(v, r, p, Flatten(tail), rest);
      MarkerEnds(v, Add(v, r, p, Flatten(tail)), tail, rest);
      AppendAssoc(Tokens(p), Flatten(tail), ["--"] + rest);
    }
  }

  lemma {:induction false} NoMarkerNoRest(parts: seq<Part>)
    requires "--" !in Flatten(parts)
    ensures forall p :: p in parts ==> !p.Rest?
  {
    if parts != [] {
      NoMarkerNoRest(parts[1..]);
      HeadTail(parts);
      var ts := Tokens(parts[0]);
      assert forall i :: 0 <= i < |ts| ==> ts[i] in Flatten(parts);
    }
  }

  /** Everything after the first `--` is positional, and it changes nothing else about the parse. */
  lemma MarkerMakesPositionals(v: Vocabulary, tokens: seq<string>, rest: seq<string>)
    requires "--" !in tokens
    ensures var r := ParseTail(v, tokens);
            ParseTail(v, tokens + (["--"] + rest)) == r.(positionals := r.positionals + rest)
  {
    hide Parse, Collect, Flatten, WellFormed;
    var parts := Parse(v, tokens);
    ParseFlattens(v, tokens);
    ParseIsWellFormed(v, tokens);
    NoMarkerNoRest(parts);
    MarkerEnds(v, EMPTY, parts, rest);
    ParseIsUnique(v, parts + [Rest(rest)]);
  }
}
