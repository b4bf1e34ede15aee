/** The verdict rule of the `count` compatibility harness.

    One `count` command per case is sent, for every collection pairing, to
    the target backend and to the reference ("compat") backend. Each pairing
    is classified by which side failed, judged by the error matcher or the
    document comparator, and contributes to a single `nonEmptyResults` flag;
    the flag is finally checked against the case's declared result type.

    Network I/O is abstracted into `Backends` (what each backend replies to a
    command) and the assertion helpers into `Comparators` (uninterpreted
    predicates). */
module CountCompat {

  import opened Wrappers
  import opened Bson

  /** `CompatTestCaseResultType`: the declared shape of a case's results.
      Any value other than the two named ones is fatal to the case. */
  datatype ResultType = NonEmptyResult | EmptyResult | UnknownResultType(code: int)

  /** `countCompatTestCase`: one declared count case. A `filter` of `Nil` is
      the missing (nil) filter; `optSkip` of `None` is Go's nil skip; an
      empty `failsForFerretDB` means the case carries no known-divergence
      annotation. */
  datatype CountCase<V> = CountCase(
    filter: D<V>,
    optSkip: Option<V>,
    limit: Int64,
    failsForFerretDB: string,
    resultType: ResultType)
  {
    predicate Annotated() {
      failsForFerretDB != ""
    }
  }

  /** A collection handle; only its name is observable to the harness. */
  datatype Collection = Collection(name: string)

  /** The `count` command document `{count, query, skip, limit}`. */
  datatype CountCommand<V> = CountCommand(count: string, query: D<V>, skip: Option<V>, limit: Int64)

  /** What a backend answers to a command, after decoding: a document, or a
      command error (in which case the result variable stays nil). */
  datatype Reply<V> = Ok(doc: D<V>) | Failed(err: CommandError)

  /** The two backends of a run, as functions from command to reply. */
  datatype Backends<!V> = Backends(target: CountCommand<V> -> Reply<V>, compat: CountCommand<V> -> Reply<V>)

  /** The assertion helpers, left uninterpreted. `equalDocuments(expected,
      actual)` models `AssertEqualDocuments(t, compatRes, targetRes)`;
      `matchesCommandError(expected, actual)` models
      `AssertMatchesCommandError(t, compatErr, targetErr)`. The model hands
      the matcher only each error's code and name: that the real helper
      ignores messages is assumed here, not derived. */
  datatype Comparators<!V> = Comparators(
    equalDocuments: (D<V>, D<V>) -> bool,
    matchesCommandError: (Option<ErrorClass>, ErrorClass) -> bool)

  /** The three ways a pairing can end up. */
  datatype PairOutcome<V> =
    | TargetErr(targetErr: CommandError, compatErr: Option<CommandError>)
    | TargetOk(targetRes: D<V>, compatFailure: CommandError)
    | BothOk(targetRes: D<V>, compatRes: D<V>)

  /** Whether the pairing subtest passed, and whether it sets the flag. */
  datatype Judgement = Judgement(passed: bool, nonEmpty: bool)

  /** The testing handle a pairing reports through: the subtest itself, or
      the `FailsForFerretDB` wrapper around it. */
  datatype Handle = Plain | FailsForFerretDB(issue: string)

  /** Everything one pairing subtest does and observes. */
  datatype PairReport<V> = PairReport(
    subtest: string,
    handle: Handle,
    targetCommand: CountCommand<V>,
    compatCommand: CountCommand<V>,
    outcome: PairOutcome<V>,
    judgement: Judgement)

  /** Result of the aggregate check after all pairings. */
  datatype AggregateCheck = Holds | Violated | NotChecked | Fatal

  /** A case is either rejected for its missing filter before any pairing
      runs, or runs every pairing and then the aggregate check. */
  datatype CaseRun<V> =
    | FilterMissing
    | Ran(reports: seq<PairReport<V>>, nonEmptyResults: bool, aggregate: AggregateCheck)

  /** The command sent to the backend holding `coll`. */
  function RenderCount<V>(coll: Collection, tc: CountCase<V>): CountCommand<V> {
    CountCommand(coll.name, tc.filter, tc.optSkip, tc.limit)
  }

  /** The handle a pairing subtest of `tc` reports through. */
  function HandleFor<V>(tc: CountCase<V>): (h: Handle)
    ensures h.Plain? <==> !tc.Annotated()
    ensures h.FailsForFerretDB? ==> h.issue == tc.failsForFerretDB
  {
    if tc.failsForFerretDB != "" then FailsForFerretDB(tc.failsForFerretDB) else Plain
  }

  /** Classifies a pairing by which backend failed. */
  function Classify<V>(targetReply: Reply<V>, compatReply: Reply<V>): (o: PairOutcome<V>)
    ensures o.TargetErr? <==> targetReply.Failed?
    ensures o.TargetOk? <==> targetReply.Ok? && compatReply.Failed?
    ensures o.BothOk? <==> targetReply.Ok? && compatReply.Ok?
    ensures !o.TargetErr? ==> o.targetRes == targetReply.doc
    ensures o.TargetErr? ==>
      && o.targetErr == targetReply.err
      && (o.compatErr.Some? <==> compatReply.Failed?)
      && (o.compatErr.Some? ==> o.compatErr.value == compatReply.err)
    ensures o.TargetOk? ==> o.compatFailure == compatReply.err
    ensures o.BothOk? ==> o.compatRes == compatReply.doc
  {
    match targetReply
    case Failed(te) =>
      TargetErr(te, if compatReply.Failed? then Some(compatReply.err) else None)
    case Ok(tres) =>
      match compatReply
      case Failed(ce) => TargetOk(tres, ce)
      case Ok(cres) => BothOk(tres, cres)
  }

  /** The class of an optional error, as handed to the error matcher. */
  function OptionalClass(e: Option<CommandError>): Option<ErrorClass> {
    match e
    case None => None
    case Some(err) => Some(ClassOf(err))
  }

  /** The per-pairing verdict. A target error is judged by the error matcher
      alone and stops the subtest before the flag; a compat error after a
      target success fails the subtest at once; two successes are judged by
      the document comparator, and the flag is set when either result is a
      non-nil document, whether or not the comparison passed. */
  function Judge<V>(o: PairOutcome<V>, cmp: Comparators<V>): (j: Judgement)
    ensures o.TargetErr? ==>
      && (j.passed <==> cmp.matchesCommandError(OptionalClass(o.compatErr), ClassOf(o.targetErr)))
      && !j.nonEmpty
    ensures o.TargetOk? ==> !j.passed && !j.nonEmpty
    ensures o.BothOk? ==>
      && (j.passed <==> cmp.equalDocuments(o.compatRes, o.targetRes))
      && (j.nonEmpty <==> o.targetRes.Doc? || o.compatRes.Doc?)
  {
    match o
    case TargetErr(te, ce) =>
      Judgement(cmp.matchesCommandError(OptionalClass(ce), ClassOf(te)), false)
    case TargetOk(_, _) =>
      Judgement(false, false)
    case BothOk(tres, cres) =>
      Judgement(cmp.equalDocuments(cres, tres), tres.Doc? || cres.Doc?)
  }

  /** One pairing subtest: render the command for each side, ask each
      backend, classify and judge. The contract restates the verdict directly
      in terms of the two replies. */
  function RunPairing<V>(tc: CountCase<V>, target: Collection, compat: Collection,
                         backends: Backends<V>, cmp: Comparators<V>): (r: PairReport<V>)
    ensures r.subtest == target.name
    ensures r.handle == HandleFor(tc)
    ensures r.targetCommand.count == target.name && r.compatCommand.count == compat.name
    ensures r.targetCommand.(count := compat.name) == r.compatCommand
    ensures r.targetCommand.query == tc.filter && r.targetCommand.skip == tc.optSkip
      && r.targetCommand.limit == tc.limit
    ensures
      var tr := backends.target(r.targetCommand);
      var cr := backends.compat(r.compatCommand);
      && (r.judgement.passed <==>
            || (tr.Failed? && cmp.matchesCommandError(
                                if cr.Failed? then Some(ClassOf(cr.err)) else None, ClassOf(tr.err)))
            || (tr.Ok? && cr.Ok? && cmp.equalDocuments(cr.doc, tr.doc)))
      && (r.judgement.nonEmpty <==> tr.Ok? && cr.Ok? && (tr.doc.Doc? || cr.doc.Doc?))
  {
    var targetCommand := RenderCount(target, tc);
    var compatCommand := RenderCount(compat, tc);
    var outcome := Classify(backends.target(targetCommand), backends.compat(compatCommand));
    PairReport(target.name, HandleFor(tc), targetCommand, compatCommand, outcome, Judge(outcome, cmp))
  }

  /** Some pairing in `reports` set the flag. */
  predicate SomeNonEmpty<V>(reports: seq<PairReport<V>>) {
    exists i :: 0 <= i < |reports| && reports[i].judgement.nonEmpty
  }

  /** The `nonEmptyResults` flag as the sequential subtests leave it,
      starting from `flag`: it is only ever raised, never reset. */
  function FoldNonEmpty<V>(flag: bool, reports: seq<PairReport<V>>): (r: bool)
    ensures r <==> flag || SomeNonEmpty(reports)
    decreases |reports|
  {
    if |reports| == 0 then flag
    else
      var rest := FoldNonEmpty(flag || reports[0].judgement.nonEmpty, reports[1..]);
      assert SomeNonEmpty(reports[1..]) ==> SomeNonEmpty(reports) by {
        if SomeNonEmpty(reports[1..]) {
          var k :| 0 <= k < |reports[1..]| && reports[1..][k].judgement.nonEmpty;
          assert reports[k + 1] == reports[1..][k];
        }
      }
      assert SomeNonEmpty(reports) ==> reports[0].judgement.nonEmpty || SomeNonEmpty(reports[1..]) by {
        if SomeNonEmpty(reports) {
          var k :| 0 <= k < |reports| && reports[k].judgement.nonEmpty;
          if k > 0 {
            assert reports[1..][k - 1] == reports[k];
          }
        }
      }
      rest
  }

  /** The aggregate check of a case from its result type, its annotation and
      the final flag. */
  function CaseVerdict(rt: ResultType, annotated: bool, nonEmptyResults: bool): (a: AggregateCheck)
    ensures a.Fatal? <==> rt.UnknownResultType?
    ensures a.NotChecked? <==> rt.NonEmptyResult? && annotated
    ensures a.Holds? && rt.NonEmptyResult? ==> nonEmptyResults
    ensures a.Holds? && rt.EmptyResult? ==> !nonEmptyResults
    ensures a.Violated? ==> (rt.NonEmptyResult? && !nonEmptyResults) || (rt.EmptyResult? && nonEmptyResults)
  {
    match rt
    case NonEmptyResult =>
      if annotated then NotChecked
      else if nonEmptyResults then Holds
      else Violated
    case EmptyResult =>
      if nonEmptyResults then Violated else Holds
    case UnknownResultType(_) =>
      Fatal
  }

  /** The whole case as a function: rejected for a nil filter, otherwise one
      report per pairing, index by index, then the aggregate check. The
      source indexes `compats` by every index of `targets`. */
  function RunCase<V>(tc: CountCase<V>, targets: seq<Collection>, compats: seq<Collection>,
                      backends: Backends<V>, cmp: Comparators<V>): (run: CaseRun<V>)
    requires |targets| <= |compats|
    ensures run.FilterMissing? <==> tc.filter.Nil?
    ensures run.Ran? ==> |run.reports| == |targets|
    ensures run.Ran? ==> forall i :: 0 <= i < |targets| ==>
      run.reports[i] == RunPairing(tc, targets[i], compats[i], backends, cmp)
    ensures run.Ran? ==> (run.nonEmptyResults <==> SomeNonEmpty(run.reports))
    ensures run.Ran? ==> run.aggregate == CaseVerdict(tc.resultType, tc.Annotated(), run.nonEmptyResults)
  {
    if tc.filter.Nil? then FilterMissing
    else
      var reports := seq(|targets|, i requires 0 <= i < |targets| =>
        RunPairing(tc, targets[i], compats[i], backends, cmp));
      var flag := FoldNonEmpty(false, reports);
      Ran(reports, flag, CaseVerdict(tc.resultType, tc.Annotated(), flag))
  }

  /** The case as the source runs it: the pairing subtests in order, each
      raising the shared flag when it saw a non-nil result. */
  method TestCountCase<V>(tc: CountCase<V>, targets: seq<Collection>, compats: seq<Collection>,
                          backends: Backends<V>, cmp: Comparators<V>) returns (run: CaseRun<V>)
    requires |targets| <= |compats|
    ensures run == RunCase(tc, targets, compats, backends, cmp)
  {
    if tc.filter.Nil? {
      return FilterMissing;
    }
    var nonEmptyResults := false;
    var reports: seq<PairReport<V>> := [];
    for i := 0 to |targets|
      invariant |reports| == i
      invariant forall k :: 0 <= k < i ==> reports[k] == RunPairing(tc, targets[k], compats[k], backends, cmp)
      invariant nonEmptyResults <==> SomeNonEmpty(reports)
    {
      var report := RunPairing(tc, targets[i], compats[i], backends, cmp);
      if report.judgement.nonEmpty {
        nonEmptyResults := true;
      }
      assert forall k :: 0 <= k < i ==> (reports + [report])[k] == reports[k];
      reports := reports + [report];
    }
    run := Ran(reports, nonEmptyResults, CaseVerdict(tc.resultType, tc.Annotated(), nonEmptyResults));
  }

  /** A pairing failure reported through the plain subtest handle. */
  predicate PlainFailure<V>(r: PairReport<V>) {
    r.handle.Plain? && !r.judgement.passed
  }

  /** The case fails on its own handles: a nil filter, a violated or fatal
      aggregate check (always reported on the case itself, never through the
      wrapper), or a pairing failure on an unwrapped subtest. Failures routed
      through `FailsForFerretDB` are left to that wrapper. */
  predicate CaseFailsOutright<V>(run: CaseRun<V>) {
    match run
    case FilterMissing => true
    case Ran(reports, _, aggregate) =>
      aggregate.Violated? || aggregate.Fatal? || exists i :: 0 <= i < |reports| && PlainFailure(reports[i])
  }

  /** `testCountCompat`: every case of the table, each against the same
      pairings. */
  function RunGroup<V>(cases: map<string, CountCase<V>>, targets: seq<Collection>, compats: seq<Collection>,
                       backends: Backends<V>, cmp: Comparators<V>): (runs: map<string, CaseRun<V>>)
    requires |targets| <= |compats|
  {
    map name | name in cases :: RunCase(cases[name], targets, compats, backends, cmp)
  }
}
