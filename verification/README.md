# Count compatibility harness — verdict rule

FerretDB's `count` compatibility test (`testCountCompat`) sends one `count`
command per declared case to a target backend (FerretDB) and to a reference
("compat") backend (MongoDB), for every collection pairing prepared by the
shared setup. Each pairing is classified by which side failed and judged:

- target error: only the error matcher decides (the model passes it only
  each error's code and name); the subtest stops before touching the `nonEmptyResults` flag;
- target success with compat error: the subtest fails at once, flag untouched;
- both succeed: the document comparator decides, and the flag is raised when
  either result is a non-nil document, whether or not the comparison passed.

The flag is folded over the pairings in order (the pairing subtests run one
after another) and checked against the case's declared result type:
`NonEmptyResult` needs the flag unless the case carries a `failsForFerretDB`
annotation, `EmptyResult` needs it lowered whatever the annotation, and any
other result type is fatal. A case whose filter is nil is rejected before any
pairing runs. The annotation only routes the pairing subtests through the
`FailsForFerretDB` wrapper; commands, outcomes and the flag are unchanged, and
the aggregate check is still reported on the case itself.

Files:

- `wrappers.dfy` — `Option`.
- `bson.dfy` — `bson.D` (nil or an ordered list of elements), `int64`,
  command errors and their message-free class.
- `count_compat.dfy` — the case, the `count` command, pairing outcomes and
  judgements, the flag fold, the aggregate check, the case as a function
  (`RunCase`) and as the source's loop (`TestCountCase`), and a table of
  cases run against the same pairings (`RunGroup`).
- `count_compat_properties.dfy` — lemmas relating pairings, cases and
  annotated/unannotated twins.

The backends are two functions from command to decoded reply (`Backends`);
the assertion helpers are uninterpreted predicates (`Comparators`). Values
inside documents and the skip value are a type parameter: the harness
forwards them verbatim.

One consequence the model makes explicit (`NonEmptyCheckSeesOnlyNilness`):
the `NonEmptyResult` check looks only at whether a reply document is nil, so
one pairing where both backends succeed and one of the replies is a non-nil
document satisfies it, whatever that document holds, a count of zero included.

## Model

| member | source | states |
|---|---|---|
| CountCompat.HandleFor | integration/count_compat_test.go:74-78 | a pairing reports through the `FailsForFerretDB` wrapper, carrying the issue, exactly when the case's annotation string is non-empty |
| CountCompat.Classify | integration/count_compat_test.go:96-110 | target error, target success with compat error, and both successes are exclusive and exhaustive; each outcome carries the replies' own errors and documents, from the side each came from |
| CountCompat.Judge | integration/count_compat_test.go:96-114 | on a target error the pairing passes iff the error matcher accepts the two errors, and the flag stays down; a compat-only error always fails the pairing without the flag; on a double success the pairing passes iff the document comparator accepts the two results, and the flag is raised iff either result is non-nil |
| CountCompat.RunPairing | integration/count_compat_test.go:71-115 | the subtest is named after the target collection; both commands carry the case's filter, skip and limit and differ only in the collection name; pass and flag are stated directly in terms of the two backend replies |
| CountCompat.FoldNonEmpty | integration/count_compat_test.go:66-116 | the flag left by the sequential subtests is raised iff it started raised or some pairing raised it |
| CountCompat.CaseVerdict | integration/count_compat_test.go:118-129 | fatal exactly for an unknown result type; unchecked exactly for an annotated `NonEmptyResult` case; holding implies the flag agrees with the declared result type, and a violation implies it disagrees |
| CountCompat.RunCase | integration/count_compat_test.go:63-129 | rejected iff the filter is nil; otherwise one report per pairing, index by index, the flag raised iff some report raised it, and the aggregate check applied to that flag |
| CountCompat.TestCountCase | integration/count_compat_test.go:63-129 | the in-order loop over pairings, raising a shared flag, computes exactly the functional `RunCase` |
| CountCompatProperties.FoldNonEmptyAppend | integration/count_compat_test.go:66-116 | folding two runs of subtests one after the other gives the flag of folding them together |
| CountCompatProperties.FlagNeverReset | integration/count_compat_test.go:110-114 | the flag after any prefix of the pairings implies the final flag |
| CountCompatProperties.PairingsVisitedOnce | integration/count_compat_test.go:63-69 | a nil filter runs no pairing; any other filter, the empty document included, runs every pairing exactly once, in order, pairing target `i` with compat `i` |
| CountCompatProperties.SameCommandShape | integration/count_compat_test.go:83-94 | both backends receive `count` with the case's filter, skip and limit; only the collection name differs |
| CountCompatProperties.TargetErrorJudgedByClassOnly | integration/count_compat_test.go:96-104 | on a target error the verdict depends only on the error classes, never on messages, and the flag stays down |
| CountCompatProperties.AnnotationOnlySwapsHandle | integration/count_compat_test.go:76-114 | annotating a case changes only the reporting handle: same commands, outcomes, verdicts and flag |
| CountCompatProperties.AggregateOverPairings | integration/count_compat_test.go:118-129 | over the whole matrix: unannotated `NonEmptyResult` holds iff some pairing raised the flag; annotated is unchecked; `EmptyResult` holds iff none did; unknown types are fatal after all pairings ran |
| CountCompatProperties.EmptyResultHoldsIffNoDocument | integration/count_compat_test.go:96-126 | an `EmptyResult` case holds iff no pairing had both backends succeed with a non-nil document |
| CountCompatProperties.NonEmptyCheckSeesOnlyNilness | integration/count_compat_test.go:112-124 | one pairing where both backends succeed and one reply is a non-nil document, of any content, satisfies an unannotated `NonEmptyResult` case |
| CountCompatProperties.UnannotatedFailuresAreOutright | integration/count_compat_test.go:96-129 | for an unannotated case, any failed pairing, a violated aggregate check or an unknown result type fails the case itself |
| CountCompatProperties.AnnotatedFailuresOnlyFromAggregate | integration/count_compat_test.go:118-129 | for an annotated case, only an unknown result type or a broken `EmptyResult` premise fails the case on its own handle |
| CountCompatProperties.CasesAreIsolated | integration/count_compat_test.go:57-58 | every case of the table is run against the same pairings, and changing one case leaves the runs of all other cases unchanged |

## Left out

- The semantics of `count`, `skip`, `limit`, `$size`, `$all`, `$elemMatch` and dot notation: the backends implement them, and the case tables only declare expected result shapes.
- The case tables themselves (`TestCountCompat`, integration/query_array_compat_test.go) and `testQueryCompat`, which is not part of this model.
- `setup.SetupCompatWithOpts`, including the extra nonexistent-collection pairing: the pairings are inputs. The model requires at least as many compat collections as target collections, since the source indexes the compat list by every target index.
- `RunCommand`, `Decode` and transport failures: each backend is a function from command to decoded reply or command error.
- `AssertEqualDocuments`, `AssertMatchesCommandError` and the `FailsForFerretDB` wrapper: uninterpreted; the model records which handle a failure goes to, not how the wrapper reports it.
- `t.Parallel` and `t.Run` scheduling: cases are modelled independently, and the pairing subtests of one case, which run one after another, as a sequential fold.
- `t.Logf` diagnostics.
- CountCompatProperties.TargetErrorJudgedByClassOnly: message independence is assumed of `AssertMatchesCommandError`, on the strength of the comment at integration/count_compat_test.go:100, not proved: the source passes both whole errors, messages included, and the helper is not part of this model; the model hands the matcher only each error's code and name, so the lemma holds by that choice of type. Error labels and wrapped errors are not modelled.
- `CompatTestCaseResultType` is defined in a file that is not part of this model; its values other than the two named ones are `UnknownResultType`.
