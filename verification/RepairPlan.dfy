/** Repair plans: which operation lists are accepted, and what validation against the findings leaves of them. */
module RepairPlan {
  import opened Text

  const INDEX := "wiki/index.md"

  datatype Op =
    | CreateStub(finding: int, pages: seq<string>, page: string)
    | AppendLink(finding: int, pages: seq<string>, target: string, appendTo: string)
    | UpdateIndex(finding: int, pages: seq<string>, page: string)
    | AppendEvidence(finding: int, pages: seq<string>, page: string)
  {
    /** The path an operation writes to. */
    function Path(): string {
      if AppendLink? then appendTo else page
    }

    /** What the operation's own validators guarantee. */
    predicate Made() {
      (AppendLink? ==> target != appendTo) && (UpdateIndex? ==> page == INDEX)
    }
  }

  // ---------------------------------------------------------------------------------------------
  // Acceptance
  // ---------------------------------------------------------------------------------------------

  /** Two operations may share a path only if both append a link. */
  predicate Compatible(a: Op, b: Op) {
    a.Path() == b.Path() ==> a.AppendLink? && b.AppendLink?
  }

  predicate PairwiseCompatible(ops: seq<Op>) {
    forall i, j :: 0 <= i < j < |ops| ==> Compatible(ops[i], ops[j])
  }

  datatype Verdict = Accepted | SamePath(path: string) | MixedWithLink(path: string)

  /** `ops[at]` is the first operation that clashes, and `clash` says with what. */
  ghost predicate FirstClash(ops: seq<Op>, at: nat, clash: Verdict) {
    && at < |ops| && PairwiseCompatible(ops[..at]) && !clash.Accepted? && clash.path == ops[at].Path()
    && exists i :: 0 <= i < at && ops[i].Path() == clash.path && (if clash.SamePath? then !ops[i].AppendLink?
                                                                 else ops[i].AppendLink? && !ops[at].AppendLink?)
  }

  /** `seen` holds, for each path, the last operation on it. */
  ghost predicate LastSeen(ops: seq<Op>, n: nat, seen: map<string, bool>) {
    && n <= |ops|
    && (forall i :: 0 <= i < n ==> ops[i].Path() in seen)
    && forall path :: path in seen ==> exists i :: LastOn(ops, n, path, i) && seen[path] == ops[i].AppendLink?
  }

  ghost predicate LastOn(ops: seq<Op>, n: nat, path: string, i: int)
    requires n <= |ops|
  {
    0 <= i < n && ops[i].Path() == path && forall j :: i < j < n ==> ops[j].Path() != path
  }

  /** `_no_conflicting_ops`: one pass that compares each operation with the last one on its path. */
  method NoConflictingOps(ops: seq<Op>) returns (verdict: Verdict)
    ensures verdict.Accepted? <==> PairwiseCompatible(ops)
    ensures !verdict.Accepted? ==> exists at :: FirstClash(ops, at, verdict)
  {
    hide LastSeen, PairwiseCompatible, Op.Path;
    var seen: map<string, bool> := map[];
    NothingSeen(ops);
    for n := 0 to |ops|
      invariant PairwiseCompatible(ops[..n]) && LastSeen(ops, n, seen)
    {
      var path, isLink := ops[n].Path(), ops[n].AppendLink?;
      if path in seen {
        if !seen[path] {
          ClashesWithLast(ops, n, seen);
          return SamePath(path);
        }
        if !isLink {
          ClashesWithLast(ops, n, seen);
          return MixedWithLink(path);
        }
      }
      OneMore(ops, n, seen);
      seen := seen[path := isLink];
    }
    assert ops[..|ops|] == ops;
    verdict := Accepted;
  }

  lemma NothingSeen(ops: seq<Op>)
    ensures PairwiseCompatible(ops[..0]) && LastSeen(ops, 0, map[])
  {
  }

  lemma ClashesWithLast(ops: seq<Op>, n: nat, seen: map<string, bool>)
    requires n < |ops| && PairwiseCompatible(ops[..n]) && LastSeen(ops, n, seen)
    requires ops[n].Path() in seen && (!seen[ops[n].Path()] || !ops[n].AppendLink?)
    ensures !PairwiseCompatible(ops)
    ensures var path := ops[n].Path(); FirstClash(ops, n, if !seen[path] then SamePath(path) else MixedWithLink(path))
  {
    var path := ops[n].Path();
    var i :| LastOn(ops, n, path, i) && seen[path] == ops[i].AppendLink?;
    assert !Compatible(ops[i], ops[n]);
  }

  /** If the last operation on the new one's path is compatible with it, all the earlier ones are. */
  lemma OneMore(ops: seq<Op>, n: nat, seen: map<string, bool>)
    requires n < |ops| && PairwiseCompatible(ops[..n]) && LastSeen(ops, n, seen)
    requires ops[n].Path() in seen ==> seen[ops[n].Path()] && ops[n].AppendLink?
    ensures PairwiseCompatible(ops[..n + 1])
    ensures LastSeen(ops, n + 1, seen[ops[n].Path() := ops[n].AppendLink?])
  {
    hide Compatible, Op.Path;
    forall i | 0 <= i < n ensures Compatible(ops[i], ops[n]) { CompatibleWithLast(ops, n, seen, i); }
    var before, more := ops[..n], ops[..n + 1];
    forall i, j | 0 <= i < j < |more| ensures Compatible(more[i], more[j]) {
      if j < n { assert Compatible(before[i], before[j]); }
    }
    SeenMore(ops, n, seen);
  }

  lemma CompatibleWithLast(ops: seq<Op>, n: nat, seen: map<string, bool>, i: nat)
    requires i < n < |ops| && PairwiseCompatible(ops[..n]) && LastSeen(ops, n, seen)
    requires ops[n].Path() in seen ==> seen[ops[n].Path()] && ops[n].AppendLink?
    ensures Compatible(ops[i], ops[n])
  {
    var path := ops[n].Path();
    if ops[i].Path() == path {
      var k :| LastOn(ops, n, path, k) && seen[path] == ops[k].AppendLink?;
      if i < k { assert Compatible(ops[..n][i], ops[..n][k]); }
    }
  }

  lemma SeenMore(ops: seq<Op>, n: nat, seen: map<string, bool>)
    requires n < |ops| && LastSeen(ops, n, seen)
    ensures LastSeen(ops, n + 1, seen[ops[n].Path() := ops[n].AppendLink?])
  {
    hide Op.Path;
    var path := ops[n].Path();
    var seen' := seen[path := ops[n].AppendLink?];
    forall p | p in seen' ensures exists i :: LastOn(ops, n + 1, p, i) && seen'[p] == ops[i].AppendLink? {
      if p == path {
        assert LastOn(ops, n + 1, p, n);
      } else {
        var k :| LastOn(ops, n, p, k) && seen[p] == ops[k].AppendLink?;
        assert LastOn(ops, n + 1, p, k);
      }
    }
  }

  /** An accepted plan updates the index at most once, and then nothing else of it writes the index. */
  lemma IndexIsUpdatedOnce(ops: seq<Op>, i: nat, j: nat)
    requires PairwiseCompatible(ops) && i < |ops| && j < |ops| && ops[i].UpdateIndex? && ops[i].Made()
    requires ops[j].Path() == INDEX
    ensures i == j
  {
    assert Compatible(if i < j then ops[i] else ops[j], if i < j then ops[j] else ops[i]) || i == j;
  }

  // ---------------------------------------------------------------------------------------------
  // Validation
  // ---------------------------------------------------------------------------------------------

  datatype Finding = Finding(safeToFix: bool, pages: seq<string>)

  /** The pages that exist, the paths `validate_page_path` refuses, and the links listed in the index. */
  datatype Wiki = Wiki(existing: set<string>, refused: set<string>, listed: set<string>)

  datatype Rule =
    | OutOfRange
    | Unsafe
    | WrongPages
    | BadPath(path: string)
    | MustNotExist(path: string)
    | MustExist(path: string)

  datatype Validation = Invalid(at: nat, rule: Rule) | Valid(ops: seq<Op>, dropped: seq<nat>)

  predicate Intersects(a: seq<string>, b: seq<string>) {
    exists page :: page in a && page in b
  }

  /** A path the operation may use, or what is wrong with it. */
  function PathFault(wiki: Wiki, path: string, mustExist: bool): Option<Rule> {
    if path in wiki.refused then Some(BadPath(path))
    else if mustExist && path !in wiki.existing then Some(MustExist(path))
    else if !mustExist && path in wiki.existing then Some(MustNotExist(path))
    else None
  }

  /** The first rule an operation breaks. */
  function Fault(op: Op, findings: seq<Finding>, wiki: Wiki): Option<Rule> {
    if !(0 <= op.finding < |findings|) then Some(OutOfRange)
    else if !findings[op.finding].safeToFix then Some(Unsafe)
    else if op.pages != [] && !Intersects(op.pages, findings[op.finding].pages) then Some(WrongPages)
    else match op
      case CreateStub(_, _, page) => PathFault(wiki, page, false)
      case AppendLink(_, _, target, appendTo) =>
        if PathFault(wiki, target, true).Some? then PathFault(wiki, target, true) else PathFault(wiki, appendTo, true)
      case AppendEvidence(_, _, page) => PathFault(wiki, page, true)
      case UpdateIndex(_, _, _) => None
  }

  /** An index update for a page the index lists already. */
  predicate Redundant(op: Op, wiki: Wiki) {
    op.UpdateIndex? && op.pages != [] && op.pages[0] in wiki.listed
  }

  predicate Increasing(s: seq<nat>) {
    forall i, j :: 0 <= i < j < |s| ==> s[i] < s[j]
  }

  /** `kept` are the operations at positions `at`, in order; the other positions are `dropped`. */
  ghost predicate IsRemainder(ops: seq<Op>, n: nat, wiki: Wiki, kept: seq<Op>, at: seq<nat>, dropped: seq<nat>) {
    && n <= |ops| && |kept| == |at| && |at| + |dropped| == n && Increasing(at) && Increasing(dropped)
    && (forall i :: 0 <= i < |at| ==> at[i] < n && kept[i] == ops[at[i]] && !Redundant(ops[at[i]], wiki))
    && (forall i :: 0 <= i < |dropped| ==> dropped[i] < n && Redundant(ops[dropped[i]], wiki))
  }

  /** `validate_plan`: reject on the first broken rule, otherwise drop the redundant index updates. */
  method ValidatePlan(ops: seq<Op>, findings: seq<Finding>, wiki: Wiki) returns (v: Validation, ghost at: seq<nat>)
    ensures v.Valid? <==> forall i :: 0 <= i < |ops| ==> Fault(ops[i], findings, wiki).None?
    ensures v.Invalid? ==> v.at < |ops| && Fault(ops[v.at], findings, wiki) == Some(v.rule)
                           && forall i :: 0 <= i < v.at ==> Fault(ops[i], findings, wiki).None?
    ensures v.Valid? ==> IsRemainder(ops, |ops|, wiki, v.ops, at, v.dropped)
  {
    hide Fault, Redundant;
    at := [];
    if ops == [] { return Valid(ops, []), []; }
    for index := 0 to |ops|
      invariant forall i :: 0 <= i < index ==> Fault(ops[i], findings, wiki).None?
    {
      var fault := Fault(ops[index], findings, wiki);
      if fault.Some? { return Invalid(index, fault.value), []; }
    }
    var kept: seq<Op>, dropped: seq<nat> := [], [];
    for index := 0 to |ops|
      invariant IsRemainder(ops, index, wiki, kept, at, dropped)
    {
      if Redundant(ops[index], wiki) {
        dropped := dropped + [index];
        continue;
      }
      kept, at := kept + [ops[index]], at + [index];
    }
    if |dropped| == |ops| {
      v := Valid([], dropped);
    } else if dropped != [] {
      v := Valid(kept, dropped);
    } else {
      AllKept(ops, wiki, kept, at);
      v := Valid(ops, dropped);
    }
  }

  /** Nothing dropped: every position is its own, so the plan is unchanged. */
  lemma AllKept(ops: seq<Op>, wiki: Wiki, kept: seq<Op>, at: seq<nat>)
    requires IsRemainder(ops, |ops|, wiki, kept, at, [])
    ensures kept == ops
  {
    hide Redundant;
    forall i | 0 <= i < |at| ensures at[i] == i { PositionsAreOwn(at, i); }
  }

  lemma {:induction false} AtLeast(at: seq<nat>, i: nat)
    requires Increasing(at) && i < |at|
    ensures at[i] >= i
  {
    if i > 0 { AtLeast(at, i - 1); }
  }

  lemma {:induction false} AtMost(at: seq<nat>, i: nat)
    requires Increasing(at) && i < |at| && at[|at| - 1] < |at|
    ensures at[i] <= i
    decreases |at| - i
  {
    if i < |at| - 1 { AtMost(at, i + 1); }
  }

  lemma PositionsAreOwn(at: seq<nat>, i: nat)
    requires Increasing(at) && i < |at| && at[|at| - 1] < |at|
    ensures at[i] == i
  {
    AtLeast(at, i);
    AtMost(at, i);
  }

  lemma RedundantIsIndex(op: Op, wiki: Wiki)
    requires Redundant(op, wiki) && op.Made()
    ensures op.UpdateIndex? && op.Path() == INDEX
  {
  }

  lemma OneRedundant(ops: seq<Op>, wiki: Wiki, i: nat, j: nat)
    requires PairwiseCompatible(ops) && i < |ops| && j < |ops| && ops[i].Made() && ops[j].Made()
    requires Redundant(ops[i], wiki) && Redundant(ops[j], wiki)
    ensures i == j
  {
    RedundantIsIndex(ops[j], wiki);
    IndexIsUpdatedOnce(ops, i, j);
  }

  /** What an operation may rely on when it is applied. */
  ghost predicate IsGrounded(op: Op, findings: seq<Finding>, wiki: Wiki) {
    && 0 <= op.finding < |findings| && findings[op.finding].safeToFix
    && (op.pages == [] || exists page :: page in op.pages && page in findings[op.finding].pages)
    && (op.CreateStub? ==> op.page !in wiki.existing)
    && (op.AppendEvidence? ==> op.page in wiki.existing)
    && (op.AppendLink? ==> op.target in wiki.existing && op.appendTo in wiki.existing)
  }

  /** The operation cites a finding that exists and is safe, and a page of it if it names any. */
  ghost predicate Cites(op: Op, findings: seq<Finding>) {
    && 0 <= op.finding < |findings| && findings[op.finding].safeToFix
    && (op.pages == [] || exists page :: page in op.pages && page in findings[op.finding].pages)
  }

  /** The operation needs `path` to exist, and nothing is wrong with the path it looks at before. */
  ghost predicate Needs(op: Op, path: string, wiki: Wiki) {
    || (op.AppendEvidence? && path == op.page)
    || (op.AppendLink? && path == op.target)
    || (op.AppendLink? && path == op.appendTo && op.target in wiki.existing && op.target !in wiki.refused)
  }

  /** Which operations break which rule first, and which break none. */
  lemma FaultExactlyWhen(op: Op, findings: seq<Finding>, wiki: Wiki)
    ensures var fault := Fault(op, findings, wiki);
            && (fault == Some(OutOfRange) <==> op.finding < 0 || op.finding >= |findings|)
            && (fault == Some(Unsafe) <==> 0 <= op.finding < |findings| && !findings[op.finding].safeToFix)
            && (fault == Some(WrongPages) <==>
                  && 0 <= op.finding < |findings| && findings[op.finding].safeToFix && op.pages != []
                  && forall page :: page in op.pages ==> page !in findings[op.finding].pages)
            && (forall path :: fault == Some(BadPath(path)) <==>
                  && Cites(op, findings) && path in wiki.refused
                  && (Needs(op, path, wiki) || (op.CreateStub? && path == op.page)))
            && (forall path :: fault == Some(MustExist(path)) <==>
                  Cites(op, findings) && Needs(op, path, wiki) && path !in wiki.refused && path !in wiki.existing)
            && (forall path :: fault == Some(MustNotExist(path)) <==>
                  && Cites(op, findings) && op.CreateStub? && path == op.page
                  && path !in wiki.refused && path in wiki.existing)
            && (fault.None? <==>
                  && IsGrounded(op, findings, wiki)
                  && (op.CreateStub? || op.AppendEvidence? ==> op.page !in wiki.refused)
                  && (op.AppendLink? ==> op.target !in wiki.refused && op.appendTo !in wiki.refused))
  {
  }

  /**
   * What validation leaves of an accepted plan: every operation cites a safe finding that exists, shares
   * a page with it if it names any, and finds its pages present or absent as it needs; the plan would be
   * accepted again; and at most one operation was dropped.
   */
  lemma RemainderIsAcceptable(ops: seq<Op>, findings: seq<Finding>, wiki: Wiki, kept: seq<Op>, at: seq<nat>,
                              dropped: seq<nat>)
    requires PairwiseCompatible(ops) && forall i :: 0 <= i < |ops| ==> ops[i].Made()
    requires IsRemainder(ops, |ops|, wiki, kept, at, dropped)
    requires forall i :: 0 <= i < |ops| ==> Fault(ops[i], findings, wiki).None?
    ensures forall i :: 0 <= i < |kept| ==> IsGrounded(kept[i], findings, wiki)
    ensures PairwiseCompatible(kept)
    ensures |dropped| <= 1 && |kept| >= |ops| - 1
  {
    hide Fault, IsGrounded, Redundant;
    forall i | 0 <= i < |kept| ensures IsGrounded(kept[i], findings, wiki) {
      FaultExactlyWhen(ops[at[i]], findings, wiki);
    }
    forall i, j | 0 <= i < j < |kept| ensures Compatible(kept[i], kept[j]) {
      assert Compatible(ops[at[i]], ops[at[j]]);
    }
    if |dropped| > 1 {
      assert dropped[0] < dropped[1];
      OneRedundant(ops, wiki, dropped[0], dropped[1]);
    }
  }
}
