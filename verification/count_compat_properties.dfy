/** Properties of the count harness's verdict rule that relate several
    pairings, several cases, or a case and its annotated twin. */
module CountCompatProperties {

  import opened Wrappers
  import opened Bson
  import opened CountCompat

  /** Running the subtests of `a` and then those of `b` leaves the same flag
      as running them all in one sequence: the fold is sequential. */
  lemma FoldNonEmptyAppend<V>(flag: bool, a: seq<PairReport<V>>, b: seq<PairReport<V>>)
    ensures FoldNonEmpty(flag, a + b) == FoldNonEmpty(FoldNonEmpty(flag, a), b)
  {
    if SomeNonEmpty(a + b) {
      var k :| 0 <= k < |a + b| && (a + b)[k].judgement.nonEmpty;
      if k < |a| {
        assert a[k] == (a + b)[k];
      } else {
        assert b[k - |a|] == (a + b)[k];
      }
    }
    if SomeNonEmpty(a) {
      var k :| 0 <= k < |a| && a[k].judgement.nonEmpty;
      assert (a + b)[k] == a[k];
    }
    if SomeNonEmpty(b) {
      var k :| 0 <= k < |b| && b[k].judgement.nonEmpty;
      assert (a + b)[|a| + k] == b[k];
    }
  }

  /** Once some subtest has raised the flag it stays raised for the rest of
      the case: the flag after any prefix implies the final flag. */
  lemma FlagNeverReset<V>(reports: seq<PairReport<V>>, k: nat)
    requires k <= |reports|
    ensures FoldNonEmpty(false, reports[..k]) ==> FoldNonEmpty(false, reports)
  {
  }

  /** A case with a nil filter is rejected before a single command is
      issued; any non-nil filter, including the empty document, runs every
      pairing once, in order, each subtest named after its target
      collection. */
  lemma PairingsVisitedOnce<V>(tc: CountCase<V>, targets: seq<Collection>, compats: seq<Collection>,
                               backends: Backends<V>, cmp: Comparators<V>)
    requires |targets| <= |compats|
    ensures tc.filter.Nil? ==> RunCase(tc, targets, compats, backends, cmp) == FilterMissing
    ensures tc.filter.Doc? ==>
      var run := RunCase(tc, targets, compats, backends, cmp);
      && run.Ran?
      && |run.reports| == |targets|
      && forall i :: 0 <= i < |targets| ==>
           && run.reports[i].subtest == targets[i].name
           && run.reports[i].targetCommand.count == targets[i].name
           && run.reports[i].compatCommand.count == compats[i].name
  {
  }

  /** Both backends of every pairing receive the same command shape: the
      case's own filter, skip and limit, with only the collection name
      differing. */
  lemma SameCommandShape<V>(tc: CountCase<V>, targets: seq<Collection>, compats: seq<Collection>,
                            backends: Backends<V>, cmp: Comparators<V>, i: nat)
    requires |targets| <= |compats|
    requires tc.filter.Doc? && i < |targets|
    ensures
      var r := RunCase(tc, targets, compats, backends, cmp).reports[i];
      && r.targetCommand == CountCommand(targets[i].name, tc.filter, tc.optSkip, tc.limit)
      && r.compatCommand == CountCommand(compats[i].name, tc.filter, tc.optSkip, tc.limit)
  {
  }

  /** When the target errors, the verdict depends on nothing but the two
      error classes: neither the error messages nor the compat side's
      document can change it, and the flag is never raised. */
  lemma TargetErrorJudgedByClassOnly<V>(te1: CommandError, te2: CommandError,
                                        c1: Option<CommandError>, c2: Option<CommandError>,
                                        cmp: Comparators<V>)
    requires ClassOf(te1) == ClassOf(te2)
    requires c1.Some? <==> c2.Some?
    requires c1.Some? ==> c1.value.code == c2.value.code && c1.value.name == c2.value.name
    ensures Judge(TargetErr(te1, c1), cmp) == Judge(TargetErr(te2, c2), cmp)
    ensures !Judge(TargetErr(te1, c1), cmp).nonEmpty
  {
  }

  /** A known-divergence annotation only swaps the reporting handle of each
      pairing: the same commands are issued, the same outcomes observed, the
      same verdicts reached and the same flag computed as for the
      unannotated case. */
  lemma AnnotationOnlySwapsHandle<V>(tc: CountCase<V>, issue: string, targets: seq<Collection>,
                                     compats: seq<Collection>, backends: Backends<V>, cmp: Comparators<V>)
    requires |targets| <= |compats|
    ensures
      var plain := RunCase(tc.(failsForFerretDB := ""), targets, compats, backends, cmp);
      var marked := RunCase(tc.(failsForFerretDB := issue), targets, compats, backends, cmp);
      && (plain.Ran? <==> marked.Ran?)
      && (plain.Ran? ==>
            && |plain.reports| == |marked.reports|
            && plain.nonEmptyResults == marked.nonEmptyResults
            && forall i :: 0 <= i < |plain.reports| ==>
                 && plain.reports[i].handle == Plain
                 && marked.reports[i] == plain.reports[i].(handle := HandleFor(tc.(failsForFerretDB := issue))))
  {
  }

  /** The aggregate check over the whole matrix: an unannotated
      `NonEmptyResult` case holds exactly when some pairing raised the flag,
      an annotated one is not checked, an `EmptyResult` case holds exactly
      when no pairing raised it (annotated or not), and any other result type
      is fatal after all pairings have run. */
  lemma AggregateOverPairings<V>(tc: CountCase<V>, targets: seq<Collection>, compats: seq<Collection>,
                                 backends: Backends<V>, cmp: Comparators<V>)
    requires |targets| <= |compats|
    requires tc.filter.Doc?
    ensures
      var run := RunCase(tc, targets, compats, backends, cmp);
      && (tc.resultType.NonEmptyResult? && !tc.Annotated() ==>
            (run.aggregate.Holds? <==> exists i :: 0 <= i < |targets| && run.reports[i].judgement.nonEmpty)
            && (run.aggregate.Violated? <==> forall i :: 0 <= i < |targets| ==> !run.reports[i].judgement.nonEmpty))
      && (tc.resultType.NonEmptyResult? && tc.Annotated() ==> run.aggregate.NotChecked?)
      && (tc.resultType.EmptyResult? ==>
            (run.aggregate.Holds? <==> forall i :: 0 <= i < |targets| ==> !run.reports[i].judgement.nonEmpty)
            && (run.aggregate.Violated? <==> exists i :: 0 <= i < |targets| && run.reports[i].judgement.nonEmpty))
      && (tc.resultType.UnknownResultType? ==> run.aggregate.Fatal? && |run.reports| == |targets|)
  {
  }

  /** An `EmptyResult` case holds exactly when no pairing had both backends
      succeed with at least one non-nil document; a pairing where the target
      errors, or where only the compat side errors, never spoils it. */
  lemma EmptyResultHoldsIffNoDocument<V>(tc: CountCase<V>, targets: seq<Collection>, compats: seq<Collection>,
                                         backends: Backends<V>, cmp: Comparators<V>)
    requires |targets| <= |compats|
    requires tc.filter.Doc? && tc.resultType.EmptyResult?
    ensures
      RunCase(tc, targets, compats, backends, cmp).aggregate.Holds? <==>
      forall i :: 0 <= i < |targets| ==>
        var tr := backends.target(RenderCount(targets[i], tc));
        var cr := backends.compat(RenderCount(compats[i], tc));
        !(tr.Ok? && cr.Ok? && (tr.doc.Doc? || cr.doc.Doc?))
  {
  }

  /** The `NonEmptyResult` check looks only at nil-ness, not at contents:
      as soon as one pairing of an unannotated case has both backends
      succeed and at least one of them reply with a non-nil document, the
      check holds, whatever that document says (a count of zero included). */
  lemma NonEmptyCheckSeesOnlyNilness<V>(tc: CountCase<V>, targets: seq<Collection>, compats: seq<Collection>,
                                        backends: Backends<V>, cmp: Comparators<V>, i: nat)
    requires |targets| <= |compats|
    requires tc.filter.Doc? && tc.resultType.NonEmptyResult? && !tc.Annotated()
    requires i < |targets|
    requires backends.target(RenderCount(targets[i], tc)).Ok?
    requires backends.compat(RenderCount(compats[i], tc)).Ok?
    requires backends.target(RenderCount(targets[i], tc)).doc.Doc? || backends.compat(RenderCount(compats[i], tc)).doc.Doc?
    ensures RunCase(tc, targets, compats, backends, cmp).aggregate.Holds?
  {
  }

  /** For an unannotated case, a pairing failure is a failure of the case
      itself. */
  lemma UnannotatedFailuresAreOutright<V>(tc: CountCase<V>, targets: seq<Collection>, compats: seq<Collection>,
                                          backends: Backends<V>, cmp: Comparators<V>)
    requires |targets| <= |compats|
    requires tc.filter.Doc? && !tc.Annotated()
    ensures
      var run := RunCase(tc, targets, compats, backends, cmp);
      CaseFailsOutright(run) <==>
        || run.aggregate.Violated?
        || tc.resultType.UnknownResultType?
        || exists i :: 0 <= i < |targets| && !run.reports[i].judgement.passed
  {
  }

  /** For an annotated case, pairing failures go to the wrapper; the case
      still fails on its own handle when its `EmptyResult` premise is broken
      or its result type is unknown, because the aggregate check is reported
      on the case, not through the wrapper. */
  lemma AnnotatedFailuresOnlyFromAggregate<V>(tc: CountCase<V>, targets: seq<Collection>, compats: seq<Collection>,
                                              backends: Backends<V>, cmp: Comparators<V>)
    requires |targets| <= |compats|
    requires tc.filter.Doc? && tc.Annotated()
    ensures
      var run := RunCase(tc, targets, compats, backends, cmp);
      CaseFailsOutright(run) <==>
        || tc.resultType.UnknownResultType?
        || (tc.resultType.EmptyResult? && exists i :: 0 <= i < |targets| && run.reports[i].judgement.nonEmpty)
  {
  }

  /** Cases of one table are isolated: changing, adding or removing one case
      leaves the runs of all the others as they were. */
  lemma CasesAreIsolated<V>(cases: map<string, CountCase<V>>, name: string, tc: CountCase<V>,
                            targets: seq<Collection>, compats: seq<Collection>,
                            backends: Backends<V>, cmp: Comparators<V>)
    requires |targets| <= |compats|
    ensures
      var before := RunGroup(cases, targets, compats, backends, cmp);
      var after := RunGroup(cases[name := tc], targets, compats, backends, cmp);
      forall other :: other in cases && other != name ==> after[other] == before[other]
  {
  }
}
