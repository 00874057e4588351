/**
 * The flag grammar of a prompt tail: a tokenwise parser that fills several collections in one loop,
 * proved against a grammar whose sentences flatten back to the tokens and parse in only one way.
 */
module TailGrammar {
  import opened Sequences
  import opened Text
  import opened Words

  /** The flag vocabulary of one prompt. */
  datatype Vocabulary = Vocabulary(valueFlags: set<string>, multiWord: set<string>, known: Option<set<string>>)

  datatype TailParse = TailParse(
    positionals: seq<string>,
    values: map<string, string>,
    repeats: map<string, seq<string>>,
    booleans: set<string>,
    unknown: set<string>,
    missingValues: seq<string>,
    ignoredValues: seq<(string, string)>,
    repurposed: seq<(string, string)>)
  {
    function RepeatsOf(name: string): seq<string> {
      if name in repeats then repeats[name] else []
    }

    predicate FlagOn(name: string) {
      name in booleans || name in values
    }
  }

  // ---------------------------------------------------------------------------------------------
  // Tokens
  // ---------------------------------------------------------------------------------------------

  predicate Dashed(t: string) {
    StartsWith(t, "--")
  }

  predicate LongFlag(t: string) {
    Dashed(t) && |t| > 2
  }

  predicate ShortFlag(t: string) {
    StartsWith(t, "-") && |t| > 1 && !Dashed(t)
  }

  /** `str.partition("=")` on the text after the dashes. */
  function EqualsAt(s: string): (n: nat)
    ensures n <= |s|
    ensures forall i :: 0 <= i < n ==> s[i] != '='
    ensures n < |s| ==> s[n] == '='
  {
    if s == "" || s[0] == '=' then 0 else 1 + EqualsAt(s[1..])
  }

  function KeyOf(t: string): string
    requires LongFlag(t)
  {
    t[2..][..EqualsAt(t[2..])]
  }

  predicate Attached(t: string)
    requires LongFlag(t)
  {
    EqualsAt(t[2..]) < |t[2..]|
  }

  function ValueOf(t: string): string
    requires LongFlag(t) && Attached(t)
  {
    t[2..][EqualsAt(t[2..]) + 1..]
  }

  predicate TakesValue(v: Vocabulary, key: string) {
    key in v.valueFlags || key in v.multiWord
  }

  predicate Declared(v: Vocabulary, key: string) {
    v.known.Some? && key in v.known.value
  }

  predicate Unknown(v: Vocabulary, key: string) {
    v.known.Some? && key !in v.known.value
  }

  // ---------------------------------------------------------------------------------------------
  // The grammar
  // ---------------------------------------------------------------------------------------------

  /** The role of each stretch of tokens. */
  datatype Part =
    | Positional(tok: string)
    | Switch(tok: string)
    | Assign(tok: string)
    | Valued(tok: string, taken: seq<string>)
    | Short(tok: string)
    | Rest(tokens: seq<string>)

  function Tokens(p: Part): (ts: seq<string>)
    ensures ts != []
  {
    match p
    case Valued(tok, taken) => [tok] + taken
    case Rest(tokens) => ["--"] + tokens
    case _ => [p.tok]
  }

  function Flatten(parts: seq<Part>): seq<string> {
    if parts == [] then [] else Tokens(parts[0]) + Flatten(parts[1..])
  }

  /** How many tokens, from the front, precede the next dashed one. */
  function BareRun(tokens: seq<string>): (n: nat)
    ensures n <= |tokens|
    ensures forall i :: 0 <= i < n ==> !Dashed(tokens[i])
    ensures n < |tokens| ==> Dashed(tokens[n])
  {
    if tokens == [] || Dashed(tokens[0]) then 0 else 1 + BareRun(tokens[1..])
  }

  /** How many of the tokens after flag `t` are its value. */
  function Consumed(v: Vocabulary, t: string, after: seq<string>): (n: nat)
    requires LongFlag(t)
    ensures n <= |after|
  {
    if Attached(t) then 0
    else if KeyOf(t) in v.multiWord then BareRun(after)
    else if KeyOf(t) in v.valueFlags && after != [] && !Dashed(after[0]) then 1
    else 0
  }

  function FirstPart(v: Vocabulary, tokens: seq<string>): (p: Part)
    requires tokens != []
    ensures |Tokens(p)| <= |tokens| && tokens[..|Tokens(p)|] == Tokens(p)
  {
    var t, after := tokens[0], tokens[1..];
    if t == "--" then Rest(after)
    else if LongFlag(t) then
      if Attached(t) then Assign(t)
      else if Consumed(v, t, after) > 0 then Valued(t, after[..Consumed(v, t, after)])
      else Switch(t)
    else if ShortFlag(t) then Short(t)
    else Positional(t)
  }

  function Parse(v: Vocabulary, tokens: seq<string>): seq<Part>
    decreases |tokens|
  {
    if tokens == [] then []
    else
      var p := FirstPart(v, tokens);
      [p] + Parse(v, tokens[|Tokens(p)|..])
  }

  /** Every token has exactly one role: the parts flatten back to the tokens. */
  lemma {:induction false} ParseFlattens(v: Vocabulary, tokens: seq<string>)
    ensures Flatten(Parse(v, tokens)) == tokens
    decreases |tokens|
  {
    if tokens != [] {
      hide FirstPart, Tokens;
      var p := FirstPart(v, tokens);
      var n := |Tokens(p)|;
      ParseFlattens(v, tokens[n..]);
      ConsTail(p, Parse(v, tokens[n..]));
      TakeTwo(tokens, n, |tokens|);
      DropTake(tokens, n, |tokens|);
    }
  }

  /** A sentence of the grammar, part by part: what each flag may take depends on what follows it. */
  ghost predicate WellFormed(v: Vocabulary, parts: seq<Part>) {
    parts != [] ==>
      && WellFormed(v, parts[1..])
      && FitsBefore(v, parts[0], Flatten(parts[1..]))
  }

  ghost predicate FitsBefore(v: Vocabulary, p: Part, after: seq<string>) {
    match p
    case Positional(tok) => !Dashed(tok) && !ShortFlag(tok)
    case Short(tok) => ShortFlag(tok)
    case Rest(_) => after == []
    case Assign(tok) => LongFlag(tok) && Attached(tok)
    case Switch(tok) =>
      LongFlag(tok) && !Attached(tok) && (TakesValue(v, KeyOf(tok)) ==> after == [] || Dashed(after[0]))
    case Valued(tok, taken) =>
      && LongFlag(tok) && !Attached(tok) && TakesValue(v, KeyOf(tok)) && taken != []
      && (forall t :: t in taken ==> !Dashed(t))
      && (if KeyOf(tok) in v.multiWord then after == [] || Dashed(after[0]) else |taken| == 1)
  }

  lemma FirstPartFits(v: Vocabulary, tokens: seq<string>)
    requires tokens != []
    ensures FitsBefore(v, FirstPart(v, tokens), tokens[|Tokens(FirstPart(v, tokens))|..])
  {
    hide EqualsAt;
    var t, after := tokens[0], tokens[1..];
    var p := FirstPart(v, tokens);
    if LongFlag(t) && !Attached(t) {
      var n := Consumed(v, t, after);
      DropTake(tokens, 1, |tokens|);
      assert |Tokens(p)| == n + 1;
      assert tokens[n + 1..] == after[n..];
    }
  }

  lemma {:induction false} ParseIsWellFormed(v: Vocabulary, tokens: seq<string>)
    ensures WellFormed(v, Parse(v, tokens))
    decreases |tokens|
  {
    if tokens != [] {
      hide FirstPart, Tokens, FitsBefore;
      var p := FirstPart(v, tokens);
      var rest := tokens[|Tokens(p)|..];
      ParseIsWellFormed(v, rest);
      ParseFlattens(v, rest);
      FirstPartFits(v, tokens);
      ConsTail(p, Parse(v, rest));
    }
  }

  lemma {:induction false} BareRunIs(taken: seq<string>, after: seq<string>)
    requires forall t :: t in taken ==> !Dashed(t)
    requires after == [] || Dashed(after[0])
    ensures BareRun(taken + after) == |taken|
  {
    hide Dashed;
    if taken == [] {
      EmptyAppend(after);
    } else {
      ConsAppend(taken, after);
      ConsTail(taken[0], taken[1..] + after);
      BareRunIs(taken[1..], after);
    }
  }

  lemma FittingPartIsFirst(v: Vocabulary, p: Part, after: seq<string>)
    requires FitsBefore(v, p, after)
    ensures FirstPart(v, Tokens(p) + after) == p
  {
    hide EqualsAt;
    var tokens := Tokens(p) + after;
    match p
    case Valued(tok, taken) =>
      AppendThree(tok, taken, after);
      if KeyOf(tok) in v.multiWord { BareRunIs(taken, after); }
    case Rest(rest) =>
      assert after == [] && tokens[1..] == rest;
    case Switch(tok) =>
      assert tokens[1..] == after;
    case _ =>
  }

  lemma AppendThree(tok: string, taken: seq<string>, after: seq<string>)
    ensures var ts := ([tok] + taken) + after;
            ts[0] == tok && ts[1..] == taken + after && (taken + after)[..|taken|] == taken
    ensures taken != [] ==> (taken + after)[0] == taken[0]
  {
  }

  /** The grammar is unambiguous: the parser finds the one well-formed reading of its tokens. */
  lemma {:induction false} ParseIsUnique(v: Vocabulary, parts: seq<Part>)
    requires WellFormed(v, parts)
    ensures Parse(v, Flatten(parts)) == parts
  {
    if parts != [] {
      hide FirstPart, FitsBefore, Tokens;
      var p, rest := parts[0], Flatten(parts[1..]);
      FittingPartIsFirst(v, p, rest);
      ParseIsUnique(v, parts[1..]);
      var n := |Tokens(p)|;
      AppendDrop(Tokens(p), rest);
      HeadTail(parts);
    }
  }

  // ---------------------------------------------------------------------------------------------
  // Collecting
  // ---------------------------------------------------------------------------------------------

  const EMPTY := TailParse([], map[], map[], {}, {}, [], [], [])

  function Record(r: TailParse, key: string, value: string): TailParse {
    r.(values := r.values[key := value], repeats := r.repeats[key := r.RepeatsOf(key) + [value]])
  }

  function NoteUnknown(v: Vocabulary, r: TailParse, key: string): TailParse {
    if Unknown(v, key) then r.(unknown := r.unknown + {key}) else r
  }

  /** What one part contributes; `after` is what follows it in the tail. */
  function Add(v: Vocabulary, r: TailParse, p: Part, after: seq<string>): TailParse {
    match p
    case Positional(tok) => r.(positionals := r.positionals + [tok])
    case Rest(tokens) => r.(positionals := r.positionals + tokens)
    case Short(tok) => if tok == "" then r else NoteUnknown(v, r.(booleans := r.booleans + {tok[1..]}), tok[1..])
    case Assign(tok) =>
      if !LongFlag(tok) || !Attached(tok) then r
      else
        var key, value := KeyOf(tok), ValueOf(tok);
        NoteUnknown(v, if TakesValue(v, key) then Record(r, key, value)
                       else r.(booleans := r.booleans + {key}, ignoredValues := r.ignoredValues + [(key, value)]), key)
    case Valued(tok, taken) =>
      if !LongFlag(tok) then r else NoteUnknown(v, Record(r, KeyOf(tok), Join(" ", taken)), KeyOf(tok))
    case Switch(tok) =>
      if !LongFlag(tok) then r
      else
        var key := KeyOf(tok);
        var on := r.(booleans := r.booleans + {key});
        NoteUnknown(v, if TakesValue(v, key) then on.(missingValues := on.missingValues + [key])
                       else if after != [] && !Dashed(after[0]) && !Declared(v, key) then
                         on.(repurposed := on.repurposed + [(key, after[0])])
                       else on, key)
  }

  function Collect(v: Vocabulary, r: TailParse, parts: seq<Part>): TailParse
    decreases parts
  {
    if parts == [] then r else Collect(v, Add(v, r, parts[0], Flatten(parts[1..])), parts[1..])
  }

  /** The parse of a token list. */
  function ParseTail(v: Vocabulary, tokens: seq<string>): TailParse {
    Collect(v, EMPTY, Parse(v, tokens))
  }

  /** One step of the parser: the first part is added and the rest remains to be collected. */
  lemma CollectStep(v: Vocabulary, r: TailParse, tokens: seq<string>)
    requires tokens != []
    ensures var p := FirstPart(v, tokens);
            var rest := tokens[|Tokens(p)|..];
            Collect(v, r, Parse(v, tokens)) == Collect(v, Add(v, r, p, rest), Parse(v, rest))
  {
    hide FirstPart, Tokens, Add;
    var p := FirstPart(v, tokens);
    var rest := tokens[|Tokens(p)|..];
    ParseFlattens(v, rest);
    ConsTail(p, Parse(v, rest));
  }

  /** What the parser has taken from `tokens[i..]` once it stands at `next`. */
  ghost predicate Advanced(v: Vocabulary, r: TailParse, tokens: seq<string>, i: nat, r': TailParse, next: nat)
    requires i <= next <= |tokens|
  {
    Collect(v, r, Parse(v, tokens[i..])) == Collect(v, r', Parse(v, tokens[next..]))
  }

  /** The tokens from `i` to `next` are part `p`, and `r'` is `r` with it added. */
  lemma Advance(v: Vocabulary, r: TailParse, tokens: seq<string>, i: nat, p: Part, next: nat, r': TailParse)
    requires i < next <= |tokens| && tokens[i..next] == Tokens(p) && FitsBefore(v, p, tokens[next..])
    requires r' == Add(v, r, p, tokens[next..])
    ensures Advanced(v, r, tokens, i, r', next)
  {
    hide FirstPart, Tokens, Add, Collect, Parse, FitsBefore;
    TakeTwo(tokens[i..], next - i, |tokens| - i);
    DropTake(tokens, i, next);
    DropTake(tokens[i..], next - i, |tokens| - i);
    DropDrop(tokens, i, next - i);
    FittingPartIsFirst(v, p, tokens[next..]);
    CollectStep(v, r, tokens[i..]);
  }

  /** The words a multi-word flag takes: everything up to the next dashed token. */
  method TakeWords(tokens: seq<string>, i: nat) returns (taken: seq<string>, next: nat)
    requires i <= |tokens|
    ensures i <= next <= |tokens| && taken == tokens[i..next]
    ensures forall t :: t in taken ==> !Dashed(t)
    ensures next < |tokens| ==> Dashed(tokens[next])
  {
    hide Dashed;
    taken, next := [], i;
    while next < |tokens| && !Dashed(tokens[next])
      invariant i <= next <= |tokens|
      invariant taken == tokens[i..next] && forall t :: t in taken ==> !Dashed(t)
    {
      SliceSnoc(tokens, i, next);
      taken := taken + [tokens[next]];
      next := next + 1;
    }
  }

  /** One long flag: its key, its value if it takes one, and the position after both. */
  method TakeLongFlag(v: Vocabulary, r: TailParse, tokens: seq<string>, i: nat) returns (r': TailParse, next: nat)
    requires i < |tokens| && LongFlag(tokens[i])
    ensures i < next <= |tokens| && Advanced(v, r, tokens, i, r', next)
  {
    hide EqualsAt, Dashed, Collect, Parse, Advanced;
    var tok := tokens[i];
    var key := KeyOf(tok);
    ghost var p;
    r', next := r, i + 1;
    if Attached(tok) {
      var val := ValueOf(tok);
      if TakesValue(v, key) {
        r' := Record(r', key, val);
      } else {
        r' := r'.(booleans := r'.booleans + {key}, ignoredValues := r'.ignoredValues + [(key, val)]);
      }
      p := Assign(tok);
    } else if key in v.multiWord {
      var taken;
      taken, next := TakeWords(tokens, i + 1);
      if taken != [] {
        r' := Record(r', key, Join(" ", taken));
        p := Valued(tok, taken);
      } else {
        r' := r'.(missingValues := r'.missingValues + [key], booleans := r'.booleans + {key});
        p := Switch(tok);
      }
    } else if key in v.valueFlags {
      if i + 1 < |tokens| && !Dashed(tokens[i + 1]) {
        r' := Record(r', key, tokens[i + 1]);
        next := i + 2;
        p := Valued(tok, [tokens[i + 1]]);
      } else {
        r' := r'.(missingValues := r'.missingValues + [key], booleans := r'.booleans + {key});
        p := Switch(tok);
      }
    } else {
      r' := r'.(booleans := r'.booleans + {key});
      if i + 1 < |tokens| && !Dashed(tokens[i + 1]) && !Declared(v, key) {
        r' := r'.(repurposed := r'.repurposed + [(key, tokens[i + 1])]);
      }
      p := Switch(tok);
    }
    if Unknown(v, key) { r' := r'.(unknown := r'.unknown + {key}); }
    SliceOne(tokens, i, next);
    Advance(v, r, tokens, i, p, next, r');
  }

  /** The parser's loop over the tokens of a tail. */
  method SplitTokens(v: Vocabulary, tokens: seq<string>) returns (r: TailParse)
    ensures r == ParseTail(v, tokens)
  {
    hide Collect, Parse, EqualsAt;
    r := EMPTY;
    var i := 0;
    assert tokens[0..] == tokens;
    while i < |tokens|
      invariant i <= |tokens|
      invariant Collect(v, r, Parse(v, tokens[i..])) == ParseTail(v, tokens)
    {
      var tok := tokens[i];
      ghost var before := r;
      if tok == "--" {
        r := r.(positionals := r.positionals + tokens[i + 1..]);
        SliceOne(tokens, i, |tokens|);
        DropTake(tokens, i + 1, |tokens|);
        Advance(v, before, tokens, i, Rest(tokens[i + 1..]), |tokens|, r);
        i := |tokens|;
        break;
      }
      SliceOne(tokens, i, i + 1);
      if LongFlag(tok) {
        r, i := TakeLongFlag(v, r, tokens, i);
        continue;
      }
      if StartsWith(tok, "-") && |tok| > 1 {
        var key := tok[1..];
        r := r.(booleans := r.booleans + {key});
        if Unknown(v, key) { r := r.(unknown := r.unknown + {key}); }
        Advance(v, before, tokens, i, Short(tok), i + 1, r);
      } else {
        r := r.(positionals := r.positionals + [tok]);
        Advance(v, before, tokens, i, Positional(tok), i + 1, r);
      }
      i := i + 1;
    }
    assert tokens[|tokens|..] == [];
    NothingLeft(v, r);
  }

  lemma NothingLeft(v: Vocabulary, r: TailParse)
    ensures Collect(v, r, Parse(v, [])) == r
  {
  }

  /** `_split_tail`: the grammar over the words of a tail. */
  method SplitTail(v: Vocabulary, tail: string) returns (r: TailParse)
    ensures r == ParseTail(v, Split(tail))
  {
    r := SplitTokens(v, Split(tail));
  }
}
