# IronClad Sentinel in Dafny

A model of the parts of IronClad Sentinel whose correctness is hard to see by reading one function, and proofs
of what they are for. `dafny verify dfyconfig.toml` checks all of it (Dafny 4.11).

## What is modelled

**Version ranges** (`Strings`, `Sequences`, `Versions`, `VersionOrder`, `RangeText`, `LeastVersions`, `Osv`,
`OsvAgreement`, `Specs`, `SpecForms`, `SpacedLists`, `Reporting`, `ScanResults`, `RecordClaims`,
`ReportClaims`). Versions are the keys the scanner compares; advisory ranges and manifest declarations are
texts, taken apart character by character as the scanner does. The OSV compiler is compared with the
evaluation algorithm of the OSV schema, each form of manifest sugar with the set of versions it stands for,
and the decision to report an unpinned range with its claim that every admitted version is affected.

**Taint** (`PythonTaint`, `PythonCalls`, `TaintSoundness`, `PythonFlows`, `FlowSinks`). Two abstract
interpreters of Python syntax trees. The visitor of `ast_python.py` is compared with a concrete semantics:
what is tainted on an execution path when a shell call runs. The tracker of `python_flows.py` visits breadth
first with a queue; its findings are compared with those of a pass in program order.

**The job queue** (`Jobs`, `JobBatches`, `JobProtocol`, `JobRows`). The batch loop as imperative code on a
session with committed and pending state, against a serial run; and the protocol as a transition system in
which enqueue, claim, finish, cancel and time interleave freely.

**The rate limiter** (`RateLimit`). The deque log, the table log and the limiter, over whole runs.

**Printers and parsers** (`CodeSpan`, `Spdx`, `LicenseLists`). The Markdown code-span printer against a reader
that follows section 6.1 of CommonMark 0.31; the SPDX expression parser, classifier and printer against the
trees of Annex D of SPDX 2.3.

**The policy decision and its replay** (`PolicyDocument`, `PolicyAcceptance`, `PolicyDecision`, `PolicyGate`,
`ScanReplay`, `ScanGate`). Reading and writing policy documents, the filter, the gate, the end of a scan, the
stored rows, and the decision recomputed from them.

**The SBOM** (`Sbom`, `SbomDocuments`). The CycloneDX generator against the validator beside it.

Code that changes state step by step is imperative here too: classes for the session, the queue, the stores,
the limiter, the visitors and the stored scan, methods with loops where the source loops. Each is proved
against a specification function, and the main results are lemmas about those functions.

## Where the code departs from what is said of it

Each of these is the code's behaviour in the model, with a concrete family of inputs and, where a caller could
check one beforehand, the exact condition.

- `_satisfies_affected_range` reads `!=` as `=` and drops the first character of a token without an
  operator, both of which `normalize_spec` lets through (`SpecForms.NotEqualReadsAsEqual`,
  `BareTokensLoseACharacter`, `BareNumberIsReadExactlyWhen`).
- A `~>` declaration whose last part but one is no number, such as `~> 1.x.2`, raises out of the translation and of the
  scan instead of being unknown (`SpecForms.RaisesExactlyWhen`, `Reporting.ScanRaisesExactlyWhen`).
- An open-ended `introduced: 0` is lost beside other alternatives, and a record without any, such as one of
  GIT ranges alone, is stored as `>=0` although the schema affects nothing (`OsvAgreement.AgreesExactlyWhen`).
  The text `>=0`, said to match every version, does not match prereleases of 0.
- `^0.0.z` is widened to `<0.1.0`, although the comment claims npm semantics (`Specs.CaretIsNpmExactlyWhen`).
- A range report is sound for a declaration that opens with its lower bound and an advisory of one fixed
  interval (`ReportClaims.ReportedDeclarationIsAffected`). On any record and any declaration it is sound exactly as
  `RecordClaims.RecordClaimExactlyWhen` says. It is not for declarations of upper bounds, whose number is taken for
  the lowest version (`UpperReportExactlyWhen`, `BelowThreeMisleads`), for alternatives, of which only the first is
  tested (`ReportIsSoundExactlyWhen`, `AlternativesCanMislead`), for intervals without a fix
  (`OpenedReportExactlyWhen`, `NoFixMisleads`) and for records of several intervals, which can leave a gap before
  the stored fix (`TwoIntervalsExactlyWhen`, `GapMisleads`) or go on behind it (`FirstFixMisleads`).
- The taint visitor visits a loop body once (`TaintSoundness.LoopIsMissed`), and does not look into conditional
  expressions and other forms (`OtherFormsAreMissed`), methods of sources such as `request.args.get`
  (`MethodsOfSourcesAreMissed`), other targets, and the keyword arguments of `format`; `TaintIsExactExactlyWhen` says
  of every expression whether that matters. Its sanitizer table never changes what it sees
  (`PythonCalls.SanitizersMakeNoDifference`), and methods called on a call, such as `connect().execute(q)`, are never
  reported (`UnnamedObjectsAreMissed`). The flow tracker takes a plain `get(x)` for `requests.get`
  (`FlowSinks.PlainSinksExactlyWhen`), and its order harms bodies that assign a name after a call
  has read it and nested assignments (`PythonFlows.LaterLiteralHidesTheFlow`, `DeepAssignmentIsMissed`).
- Stale reclaims do not look at `max_attempts` (`JobProtocol.StaleReclaimsIgnoreTheLimit`). Cancelling a job sticks
  exactly when no worker holds it; otherwise the worker's finish makes it succeeded, failed or queued again
  (`JobProtocol.CancelSticksExactlyWhen`, `HeldCancelDoesNotStick`).
- The SPDX parser drops parentheses, so its error "without parentheses is ambiguous" also meets expressions
  that have them. Its reserved word `N/A` is never recognised. An identifier that is a reserved word in
  parentheses is declared as that word and comes back as unknown.
- A policy's empty engine list, which enables nothing, is stored like a missing one, which enables everything;
  `fail_on: null` opens the gate (`PolicyDecision.NullThresholdOpensTheGate`); a dependency block that names an
  ecosystem blocks every ecosystem (`BlocksAreScopedExactlyWhen`).
- Two packages of ecosystems outside the map, or an @ in a version, can share a package URL, and the
  generated SBOM then fails its own validator.

The third column below says what each contract states.

## Model

| member | source | states |
|---|---|---|
| `Versions.VersionTuple` | ironclad/scanners/dependency.py:73-79 | the loop that cuts the number list to four and fills it up with zeros yields the numbers and prerelease parts of the comparison key |
| `Versions.VersionStrictWeakOrder` | ironclad/scanners/dependency.py:82-95 | the version comparison is irreflexive, transitive and total on keys; its incomparability is equality of keys, which is `_version_equal` |
| `Versions.StringsByCode` | ironclad/scanners/dependency.py:82-95 | identifiers are ordered by the code of the first character that differs, a text before what it is the start of |
| `VersionOrder.LowerCharacter` | ironclad/scanners/dependency.py:73-91 | of two prereleases of one release whose tags agree up to a place, the one with the lower character code there is the lower version |
| `VersionOrder.ShorterIdentifier` | ironclad/scanners/dependency.py:73-91 | an identifier that ends there is below one that goes on, whatever follows its dot |
| `VersionOrder.ShorterList` | ironclad/scanners/dependency.py:73-91 | and so is a shorter list of identifiers |
| `VersionOrder.PrereleaseIsBelow` | ironclad/scanners/dependency.py:82-91 | every prerelease is below its release |
| `VersionOrder.NumbersDecide` | ironclad/scanners/dependency.py:73-91 | the first of the four numbers that differs decides before any tag |
| `VersionOrder.DecorationIsIgnored` | ironclad/scanners/dependency.py:62-80 | a leading `v` and a build tag do not change a version |
| `Versions.KeyOfDotted` | ironclad/scanners/dependency.py:73-79 | the numbers read back from a printed release are the ones printed, cut to four and padded with zeros |
| `RangeText.CheckToken` | ironclad/scanners/dependency.py:105-121 | one comparator token against a version, for every text: operator by longest prefix, one character dropped when there is none |
| `RangeText.CheckTokens` | ironclad/scanners/dependency.py:104-120 | the `ok` loop: true exactly when every token of the alternative holds |
| `RangeText.SatisfiesAffectedRange` | ironclad/scanners/dependency.py:98-123 | the evaluator: true exactly when some alternative between the bars has tokens and all of them hold |
| `RangeText.PrintRangeRoundTrip` | ironclad/scanners/dependency.py:98-103 | text printed from lists of comparators splits on the bars and commas back into exactly those lists |
| `RangeText.PrintRangeMeaning` | ironclad/scanners/dependency.py:98-123 | so evaluating the printed text is evaluating the lists: some list is not empty and all of it holds |
| `RangeText.ComparatorMeaning` | ironclad/scanners/dependency.py:106-118 | a printed comparator evaluates to the comparison it was printed from, for all six operators |
| `RangeText.DoubleEqualsMeaning` | ironclad/scanners/dependency.py:106-118 | `==` reads as equality too |
| `RangeText.ComparatorListMeaning` | ironclad/scanners/dependency.py:98-123 | a printed list of comparators accepts exactly the versions that meet every one |
| `Osv.CompileEvents` | ironclad/scanners/osv.py:105-130 | the inner loop with its pending lower bound appends exactly the alternatives of the events |
| `Osv.AffectedRangeFromOsv` | ironclad/scanners/osv.py:86-136 | the compiler returns the printed alternatives of all non-GIT ranges and explicit versions, or `>=0` when there are none |
| `Osv.RangeAgrees` | ironclad/scanners/osv.py:105-130 | for one range of ascending, alternating events the compiled alternatives and the evaluation loop of the OSV schema agree on every version |
| `Osv.TextMeaning` | ironclad/scanners/osv.py:86-136 | for every such record and version, evaluating the stored text is evaluating the alternatives it was built from, or accepting every version from 0 when there were none |
| `Osv.CompilationPreservesMeaning` | ironclad/scanners/osv.py:86-136 | without an open-ended `introduced: 0` the text accepts exactly the versions the Evaluation section of the OSV schema marks as affected, except that a record with nothing to compile accepts everything from 0 |
| `Osv.OpenFromZeroAffectsAll` | ironclad/scanners/osv.py:109-112 | by the schema a range open from the beginning affects every version |
| `Osv.EmptyEventAffectsAll` | ironclad/scanners/osv.py:113-129 | an event without any of the keys makes everything from 0 affected |
| `OsvAgreement.AgreesExactlyWhen` | ironclad/scanners/osv.py:86-137 | for every record the schema allows: text and schema agree on all versions from 0 exactly when a range is open from the beginning and the other intervals and listed versions hold 0 and the least version behind every end, or no range is and the record compiles to at least one alternative |
| `OsvAgreement.BoundedAgreesExactlyWhen` | ironclad/scanners/osv.py:86-137 | without ranges unbounded above that is: a range is open from the beginning exactly when the record has no alternatives; GIT-only and empty records, stored as `>=0` although the schema affects nothing, disagree |
| `Specs.BetweenMeaning` | ironclad/scanners/dependency.py:192-214 | a translated pair of bounds admits the versions between their keys |
| `Specs.CaretMeaning` | ironclad/scanners/dependency.py:195-204 | what a caret declaration admits, on all versions |
| `Specs.CaretOnReleases` | ironclad/scanners/dependency.py:195-201 | `^a.b.c` with a > 0 admits a release exactly when it is not below it and has the same major number |
| `Specs.CaretIsNpmExactlyWhen` | ironclad/scanners/dependency.py:194-204 | the caret rewrite is npm's caret on releases exactly when the major or minor number is not zero |
| `Specs.TildeMeaning` | ironclad/scanners/dependency.py:206-214 | what a tilde declaration admits, on all versions |
| `Specs.TildeOnReleases` | ironclad/scanners/dependency.py:206-213 | `~a.b.c` admits a release exactly when it is not below it and has the same major and minor number |
| `Specs.PessimisticMeaning` | ironclad/scanners/dependency.py:183-192 | what `~>` admits, on all versions |
| `Specs.PessimisticOnReleases` | ironclad/scanners/dependency.py:183-192 | `~> x...y` admits a release exactly when it is not below it and agrees on all numbers but the last |
| `SpecForms.WildcardOnReleases` | ironclad/scanners/dependency.py:217-222 | `a.x` admits the releases with major a, `a.b.*` those with major a and minor b |
| `SpecForms.BracketMeaning` | ironclad/scanners/dependency.py:225-233 | the four bracket forms, either bound optional, admit exactly their interval |
| `SpecForms.BoundListMeaning` | ironclad/scanners/dependency.py:236-238 | a comparator list, however spaced, admits exactly the versions that meet every bound |
| `SpacedLists.SpacedListMeaning` | ironclad/scanners/dependency.py:236-238 | so does every list written with any white space around its commas, or white space alone between its comparators |
| `SpacedLists.ComparatorExactlyWhen` | ironclad/scanners/dependency.py:138 | the tokens let through are those of an operator or none, a `v` or none, a number, and nothing or a tail that starts with a dot or a dash |
| `SpacedLists.ListTranslatesExactlyWhen` | ironclad/scanners/dependency.py:235-239 | a list of words that is none of the other forms is translated, unchanged, exactly when every word has that shape, and is unknown otherwise |
| `SpecForms.AlternativesMeaning` | ironclad/scanners/dependency.py:176-180 | a declaration with alternatives admits exactly the union when every side translates |
| `SpecForms.AlternativesUnknown` | ironclad/scanners/dependency.py:177-179 | one untranslatable side makes the whole declaration unknown |
| `SpecForms.NotEqualReadsAsEqual` | ironclad/scanners/dependency.py:107-108 | `!=d` is translated unchanged, and then admits exactly the versions equal to d |
| `SpecForms.BareTokensLoseACharacter` | ironclad/scanners/dependency.py:104-109 | any list of comparators is translated unchanged, and every token in it without one of the evaluator's operators stands for the version its text is without the first character |
| `SpecForms.BareNumberIsReadExactlyWhen` | ironclad/scanners/dependency.py:107-108 | that is the number itself exactly when its first five components are one and the same digit, missing ones counting as 0 |
| `SpecForms.IntLiteralExactlyWhen` | ironclad/scanners/dependency.py:191 | an integer literal, as `int()` takes it, is groups of digits with single underscores between them |
| `SpecForms.RaisesExactlyWhen` | ironclad/scanners/dependency.py:174-192 | the translation raises exactly when some alternative is a `~>` whose last part but one is no integer literal |
| `SpecForms.PessimisticCanRaise` | ironclad/scanners/dependency.py:183-192 | `~> 1.x.2` is such a declaration |
| `Reporting.ScanDependency` | ironclad/scanners/dependency.py:952-993 | the loop over a dependency's advisories emits exactly the findings of the reporting decision |
| `Reporting.ScanRaisesExactlyWhen` | ironclad/scanners/dependency.py:952-976 | the scan of a dependency ends in that exception exactly when it is an unpinned range with such an alternative and some advisory with a fix affects its candidate |
| `ScanResults.PinnedFindings` | ironclad/scanners/dependency.py:952-993 | a pinned dependency gets one known-vulnerability finding for each advisory whose range its version satisfies, in the order of the advisories, and no other |
| `ScanResults.PinnedByTheSchema` | ironclad/scanners/dependency.py:952-993 | against advisories compiled from OSV records without an open-ended `introduced: 0` it is reported for exactly the records whose evaluation by the schema affects its version |
| `ScanResults.RangeFindings` | ironclad/scanners/dependency.py:964-976 | an unpinned range gets one finding for each advisory that affects its candidate and has no fix, or one the translated declaration excludes |
| `ScanResults.UntranslatedIsNotReported` | ironclad/scanners/dependency.py:972-976 | with a missing or untranslatable declaration only advisories without a fix are reported |
| `Reporting.DeclarationDeclares` | ironclad/scanners/dependency.py:126-132 | each declaration form - `^`, `~`, `~>`, wildcard, bracket, comparator list - is rewritten into the bounds it stands for, and its candidate version is the number of the first of them |
| `Reporting.CandidateOfAlternatives` | ironclad/scanners/dependency.py:126-132 | the candidate version of a declaration with alternatives is that of the first alternative |
| `Reporting.AnyVersionIsFromZero` | ironclad/scanners/dependency.py:169-172 | the four words for any version admit exactly the versions from 0 on |
| `LeastVersions.StartIsLeast` | ironclad/scanners/dependency.py:82-90 | if any version meets a list of bounds, the least one that does is computed from the bounds: `>` starts at the next version in the order, upper bounds at `0-.` |
| `LeastVersions.NextIsNext` | ironclad/scanners/dependency.py:62-90 | every version text has a next one in the order, with nothing in between |
| `RecordClaims.RangeReportExactlyWhen` | ironclad/scanners/dependency.py:964-976 | against any advisory a range, alternatives included, is reported exactly when the first number of its text is affected and no alternative admits the fix, if one is stored |
| `RecordClaims.RecordClaimExactlyWhen` | ironclad/scanners/dependency.py:964-984 | for any alternatives and any record the schema allows - any number of ranges, intervals and listed versions: every permitted version is affected exactly when the least version of each alternative, if it has one, is affected and so is the least version behind every end of the record that the alternative admits |
| `RecordClaims.OpenedRecordExactlyWhen` | ironclad/scanners/dependency.py:964-984 | for a declaration that opens with its lower bound, given a report: exactly when the least version behind every end that the declaration admits is affected |
| `ReportClaims.ReportedRangeIsAffected` | ironclad/scanners/dependency.py:964-984 | reporting an unpinned range is sound: one fixed interval, a declaration rewritten into bounds of which the first is its lower bound, and a report means every version it permits is affected |
| `ReportClaims.ReportedDeclarationIsAffected` | ironclad/scanners/dependency.py:964-984 | the same for every `^`, `~`, `~>` and wildcard declaration, brackets with a lower bound, and lists that open with theirs |
| `ReportClaims.ClaimExactlyWhen` | ironclad/scanners/dependency.py:964-984 | for one interval: every permitted version is affected exactly when the least version of each alternative, if it has one, is affected and the alternative ends before the interval |
| `ReportClaims.ReportIsSoundExactlyWhen` | ironclad/scanners/dependency.py:964-984 | given a report against a fixed interval, the claim is true exactly when the least version of every alternative, whatever operator it opens with, is affected |
| `ReportClaims.UpperReportExactlyWhen` | ironclad/scanners/dependency.py:126-132 | given a report on a declaration of upper bounds, the claim is true exactly when the interval reaches down to the least version, as `introduced: 0` does |
| `ReportClaims.UpperBoundMisleads` | ironclad/scanners/dependency.py:126-132 | `<n` with n affected is reported, and permits every version below the interval, none of them affected |
| `ReportClaims.BelowThreeMisleads` | ironclad/scanners/dependency.py:126-132 | `<3.0` against 1.0 up to 4.0 is reported and permits 0.5, which is not affected |
| `ReportClaims.AlternativesCanMislead` | ironclad/scanners/dependency.py:126-132 | the alternatives `>=1.0, <1.5` and `>=3.0` against everything before 2.0 are reported although they permit an unaffected version |
| `ReportClaims.OpenedReportExactlyWhen` | ironclad/scanners/dependency.py:972-976 | a declaration that opens with its lower bound and an interval with any end: given a report, the claim is true exactly when some upper bound or `=` is at or below `last_affected`, or the bounds exclude the fix or limit |
| `ReportClaims.NoFixMisleads` | ironclad/scanners/dependency.py:972-976 | `>=n` against an interval that ends with `last_affected` is reported exactly when n is affected, and its claim is never true |
| `ReportClaims.TwoIntervalsExactlyWhen` | ironclad/scanners/osv.py:239-246 | for two intervals, however the first ends: every permitted version is affected exactly when the least version of each alternative lies in one of them and the alternative excludes the version behind the second, and the one behind the first unless the second goes on there |
| `ReportClaims.OpenedTwoIntervalsExactlyWhen` | ironclad/scanners/osv.py:239-246 | the same for a reported declaration that opens with its lower bound, where only the two ends matter |
| `ReportClaims.FirstFixMisleads` | ironclad/scanners/osv.py:239-246 | `>=n` above the first fix with n in the second interval is reported, and its claim is not true |
| `ReportClaims.GapMisleads` | ironclad/scanners/osv.py:239-246 | `>=1.0, <2.2` against everything up to 1.5 and from 2.0 up to the fix 2.5 is reported and permits 1.7, which is not affected |
| `PythonTaint.FunctionTaintVisitor.MarkParamTainted` | ironclad/scanners/ast_python.py:151-154 | marks exactly the hinted parameters |
| `PythonTaint.FunctionTaintVisitor.CheckCall` | ironclad/scanners/ast_python.py:199-279 | appends exactly the findings of a call under the current taint |
| `PythonCalls.ShellCalls` | ironclad/scanners/ast_python.py:199-279 | on the syntax: `os.system`, `os.popen` and `commands.getoutput` always, and the five `subprocess` functions exactly when some keyword is `shell=True`, give command injection with a tainted argument and a shell warning without one |
| `PythonCalls.PlainCalls` | ironclad/scanners/ast_python.py:199-205 | `eval`, `exec` and `compile` are always reported, with a source exactly when an argument is tainted; no other plain name is |
| `PythonCalls.QueryCalls` | ironclad/scanners/ast_python.py:206-322 | a query method of anything with a dotted name is reported exactly when an argument is tainted or the first one is put together on the spot |
| `PythonCalls.LoaderCalls` | ironclad/scanners/ast_python.py:208-361 | the deserialization functions are always reported, except `yaml.load` with a `Loader` whose name holds `SafeLoader` |
| `PythonCalls.UnnamedObjectsAreMissed` | ironclad/scanners/ast_python.py:99-104 | a method called on a call or a subscript, such as `connect().execute(q)`, is never reported |
| `PythonCalls.OtherCalls` | ironclad/scanners/ast_python.py:199-209 | no other function of a module is |
| `PythonCalls.SourcesAreTainted` | ironclad/scanners/ast_python.py:156-168 | `request`, `sys` and `os` attributes are tainted exactly when they are among the sources |
| `PythonCalls.InputIsTainted` | ironclad/scanners/ast_python.py:159-164 | the one plain function that is a source is `input` |
| `PythonCalls.FlaskRequestIsTainted` | ironclad/scanners/ast_python.py:37-43 | `flask.request.args` and `flask.request.form` are sources |
| `PythonCalls.HintedParameters` | ironclad/scanners/ast_python.py:151-154 | a parameter is hinted exactly when it has one of four names or the letters `req`, in either case, somewhere in it |
| `PythonCalls.SanitizersMakeNoDifference` | ironclad/scanners/ast_python.py:156-189 | the sanitizer table never changes what the visitor sees: none of its names is a `format` method, and all other calls but sources are taken to be clean |
| `PythonTaint.FunctionTaintVisitor.VisitAssign` | ironclad/scanners/ast_python.py:191-197 | marks the name targets of a tainted value, then visits the parts under the new taint |
| `PythonTaint.FunctionTaintVisitor.Visit` | ironclad/scanners/ast_python.py:136-211 | one statement: the new taint and findings are those of the recursive specification |
| `PythonTaint.ScanFile` | ironclad/scanners/ast_python.py:588-607 | a fresh visitor per function and one for the module body; the findings are the concatenation |
| `TaintSoundness.MarkedIsTainted` | ironclad/scanners/ast_python.py:156-189 | what the visitor takes to be tainted is tainted in the concrete semantics, where taint passes through every expression form except calls of plain functions |
| `TaintSoundness.TaintIsExact` | ironclad/scanners/ast_python.py:156-189 | under given marks the visitor is right about an expression exactly when a source or marked name stands where it looks, or no source and no marked name reaches the value at all |
| `TaintSoundness.TaintIsExactExactlyWhen` | ironclad/scanners/ast_python.py:156-189 | it is right under all marks exactly when it sees a source in the expression, or no source reaches the value and every name that does stands where it looks |
| `TaintSoundness.CallHitExactlyWhen` | ironclad/scanners/ast_python.py:199-256 | a call has a command-injection finding exactly when it is a shell call with a tainted argument, exactly when - for a shell call - some argument has taint in sight or none has any |
| `TaintSoundness.HitsExact` | ironclad/scanners/ast_python.py:199-279 | the command-injection findings of an expression are exactly the shell calls that receive a tainted argument, when each shell call in it has its arguments in sight |
| `TaintSoundness.Monotone` | ironclad/scanners/ast_python.py:156-189 | more tainted variables taint no fewer values and reach no fewer shell calls |
| `TaintSoundness.NoTaintedShellCallIsMissed` | ironclad/scanners/ast_python.py:156-256 | on every execution path of a covered function - values assigned to names and arguments of shell calls in sight where the visitor meets them, loops that mark nothing new - every shell call that runs with a tainted argument has a finding |
| `TaintSoundness.LoopFreeFunctionsAreSound` | ironclad/scanners/ast_python.py:156-256 | for loop-free functions `CoveredBody` alone is enough |
| `TaintSoundness.StraightLineIsExact` | ironclad/scanners/ast_python.py:156-256 | on covered straight-line functions with fresh names the findings are exactly the tainted shell calls of the run in which every hinted parameter is the attacker's |
| `TaintSoundness.LoopIsMissed` | ironclad/scanners/ast_python.py:593-598 | `while c: os.system(x); x = input()`: the second round is tainted, the single visit reports nothing |
| `TaintSoundness.OtherFormsAreMissed` | ironclad/scanners/ast_python.py:156-189 | a shell call on a conditional expression, or any form the visitor does not know, with `input()` as a part has no command-injection finding |
| `TaintSoundness.MethodsOfSourcesAreMissed` | ironclad/scanners/ast_python.py:156-189 | a shell call on `request.args.get(key)` has no command-injection finding: only `request.args` itself is in the table |
| `TaintSoundness.OtherTargetsAreMissed` | ironclad/scanners/ast_python.py:191-196 | augmented assignments and tuple targets taint a variable the visitor does not mark |
| `TaintSoundness.FormatKeywordIsMissed` | ironclad/scanners/ast_python.py:181-188 | a keyword argument of `format` taints a value the visitor takes to be clean |
| `PythonFlows.Walk` | ironclad/scanners/python_flows.py:609 | the queue walk yields the nodes level by level |
| `PythonFlows.FlowTracker.MarkTaintedParams` | ironclad/scanners/python_flows.py:336-344 | marks exactly the hinted parameters |
| `PythonFlows.FlowTracker.VisitAssign` | ironclad/scanners/python_flows.py:422-431 | the taint after an assignment: marked from a source, cleared by a literal, otherwise unchanged |
| `PythonFlows.FlowTracker.CheckCall` | ironclad/scanners/python_flows.py:434-450 | appends, for each sink rule the call matches, the finding of its first flow |
| `PythonFlows.RunScope` | ironclad/scanners/python_flows.py:605-613 | the driver returns the findings of visiting the level order with a fresh tracker |
| `PythonFlows.SinkFiresExactlyWhen` | ironclad/scanners/python_flows.py:442-450 | a sink fires, once, exactly when some argument is tainted and holds no sanitizer |
| `FlowSinks.CalledName` | ironclad/scanners/python_flows.py:434-435 | a call goes by the chain of attributes down to a plain name, and a method of another call by no name |
| `FlowSinks.PlainSinksExactlyWhen` | ironclad/scanners/python_flows.py:434-438 | a call of a plain name is a sink of a rule exactly when it is the last part of one of its calls: `get(x)` for `requests.get` |
| `FlowSinks.DottedSinksExactlyWhen` | ironclad/scanners/python_flows.py:434-535 | a call of a dotted name exactly when its last part is that of one of the calls and its first part is that of one too, or one of sixteen names of objects |
| `FlowSinks.AliasesResolve` | ironclad/scanners/python_flows.py:54-63 | an import alias stands for the first part of a name and nothing else in it |
| `FlowSinks.ArgumentsExactlyWhen` | ironclad/scanners/python_flows.py:452-461 | rules about targets look at the first positional argument alone, or without any at the first of four keywords; the others at every argument but `**` ones |
| `FlowSinks.CleanedExactlyWhen` | ironclad/scanners/python_flows.py:405-420 | an argument is cleaned exactly when it holds, at any depth, a call with the last part of one of the rule's sanitizers or an attribute `name` |
| `FlowSinks.CallSources` | ironclad/scanners/python_flows.py:368-385 | a call hands taint on exactly when it is a source, a `get` of something tainted, or one of five conversions of it |
| `FlowSinks.ReadsAreSources` | ironclad/scanners/python_flows.py:354-367 | whatever is read from `request` or `req` is a source, and so are eight other attributes |
| `FlowSinks.HintedExactlyWhen` | ironclad/scanners/python_flows.py:336-344 | a parameter is hinted exactly when it has one of ten names or holds one of two words in any case |
| `FlowSinks.MarkedExactlyWhen` | ironclad/scanners/python_flows.py:336-344 | exactly the hinted parameters are marked |
| `PythonFlows.SourceIsLocal` | ironclad/scanners/python_flows.py:346-396 | the origin of an expression depends only on the names in it |
| `PythonFlows.ForestsSideBySide` | ironclad/scanners/python_flows.py:609-613 | however the levels of two forests interleave, the findings are those of each |
| `PythonFlows.FlatScope` | ironclad/scanners/python_flows.py:605-613 | on a flat body every assignment is processed, in program order, before any call, and every call is judged by the taint after all of them |
| `PythonFlows.BreadthFirstIsHarmless` | ironclad/scanners/python_flows.py:605-613 | on a flat body in which every name a call reads has the same taint there as after the whole body, the breadth-first visit reports what a pass in program order reports, each finding as often |
| `PythonFlows.EarlyUseIsReported` | ironclad/scanners/python_flows.py:605-613 | a use before the tainting assignment is reported, a pass in program order reports nothing |
| `PythonFlows.LaterLiteralHidesTheFlow` | ironclad/scanners/python_flows.py:428-431 | a name tainted, used and afterwards bound to a literal is not reported, a pass in program order reports it |
| `PythonFlows.DeepAssignmentIsMissed` | ironclad/scanners/python_flows.py:609-613 | a tainting assignment two conditions deep is processed after a top-level call that follows it, so the flow through both conditions is missed |
| `Jobs.JobQueue.Enqueue` | ironclad/platform/jobs.py:74-88 | adds one queued row to the pending state, or refuses an unknown kind and changes nothing |
| `Jobs.JobQueue.Claim` | ironclad/platform/jobs.py:90-122 | claims the runnable row with the least schedule and id, counts the attempt and commits everything pending |
| `Jobs.JobQueue.Finish` | ironclad/platform/jobs.py:124-142 | success, failure for good, or a new schedule after the backoff; only this row changes |
| `Jobs.JobQueue.Cancel` | ironclad/platform/jobs.py:144-146 | marks the row cancelled whatever its state |
| `Jobs.JobQueue.RunPending` | ironclad/platform/jobs.py:157-178 | the batch loop with its rollbacks and commits ends in the state of the recursive specification and counts the jobs handled |
| `JobBatches.BatchIsSerial` | ironclad/platform/jobs.py:157-178 | rollback isolation: a batch leaves exactly the rows and data of a serial run in which a raising handler keeps only what it committed itself |
| `JobBatches.RoundTouchesOneJob` | ironclad/platform/jobs.py:157-178 | a round changes no other row, the attempt survives a rollback, and a raising handler that has not committed changes no data |
| `JobBatches.TerminalRowsStay` | ironclad/platform/jobs.py:90-178 | a batch never touches a finished row |
| `JobBatches.BatchDrains` | ironclad/platform/jobs.py:157-178 | a lone worker handles at most as many jobs as attempts are left; a batch not cut short leaves nothing runnable |
| `JobBatches.DrainFinishesEveryJob` | ironclad/platform/jobs.py:207-234 | with as many batches as attempts left, each after the backoffs, every job ends terminal whatever the handlers do |
| `JobBatches.WorkerStopsInTime` | ironclad/platform/jobs.py:207-234 | a worker with `max_jobs` handles fewer jobs only when nothing is runnable any more, and never a whole batch more |
| `JobBatches.Worker.Run` | ironclad/platform/jobs.py:207-234 | the poll loop with `max_jobs` ends in the state of the recursive specification |
| `JobProtocol.StepKeepsInvariant` | ironclad/platform/jobs.py:74-146 | every atomic step keeps the invariant on attempts, claims, schedules and held jobs |
| `JobProtocol.RunKeepsInvariant` | ironclad/platform/jobs.py:74-146 | so does every interleaving of steps |
| `JobProtocol.AttemptsAreBounded` | ironclad/platform/jobs.py:90-142 | over every interleaving attempts count the claims, a queued job has one left, and there are at most `max_attempts` (at least one) plus the stale reclaims |
| `JobProtocol.ClaimsAreSpaced` | ironclad/platform/jobs.py:137-142 | without a stale reclaim the n-th claim comes at least b*(2^(n-1) - 1) after the first |
| `JobProtocol.ClaimsUseUpAttempts` | ironclad/platform/jobs.py:90-142 | a run without new jobs makes at most as many claims as attempts are left, plus the stale reclaims |
| `JobProtocol.StaleReclaimsIgnoreTheLimit` | ironclad/platform/jobs.py:98-105 | a job that may run once can be claimed any number of times by stale reclaims |
| `JobProtocol.CancelledStaysUnlessHeld` | ironclad/platform/jobs.py:144-146 | a cancelled job that no worker holds stays cancelled over every interleaving |
| `JobProtocol.HeldCancelDoesNotStick` | ironclad/platform/jobs.py:124-146 | cancelling a job that a worker holds is undone when the worker fails with an attempt left |
| `JobProtocol.CancelSticksExactlyWhen` | ironclad/platform/jobs.py:124-150 | from any state, a cancelled job stays cancelled over every interleaving exactly when no worker holds it at that moment |
| `JobProtocol.RoundIsProtocolRun` | ironclad/platform/jobs.py:157-178 | one round of the batch loop is a claim, time passing and the finish of the claimed job in the protocol |
| `JobRows.NewJobWaits` | ironclad/platform/jobs.py:74-112 | a new job can be claimed exactly by who asks for its kind, from its schedule or its creation on |
| `JobRows.ClaimedJobWaits` | ironclad/platform/jobs.py:98-112 | a claimed job can be claimed again exactly once it has run for longer than the stale time |
| `JobRows.FinishedJobWaits` | ironclad/platform/jobs.py:98-146 | a failed job with attempts left can be claimed again exactly from the end of its doubled backoff on; other finished jobs never |
| `JobRows.ErrorIsKept` | ironclad/platform/jobs.py:132 | the stored error is the first 2000 characters of the error |
| `JobRows.EveryRowTellsItsStory` | ironclad/platform/jobs.py:74-146 | over every interleaving: succeeded and running rows hold no error, a queued row holds one exactly when it has been tried, a failed row holds one and has used up its attempts |
| `RateLimit.InMemoryStore.RecordAndCount` | ironclad/platform/ratelimit.py:139-149 | prunes the front of the log, appends the hit, returns the length; other keys unchanged |
| `RateLimit.InMemoryStore.RetryAfter` | ironclad/platform/ratelimit.py:155-167 | the wait until the oldest of the last `limit` hits leaves the window, at least one second |
| `RateLimit.DatabaseStore.RecordAndCount` | ironclad/platform/ratelimit.py:203-220 | deletes the expired rows of the key, inserts the hit, counts |
| `RateLimit.DatabaseStore.RetryAfter` | ironclad/platform/ratelimit.py:228-241 | the same wait from the ordered rows |
| `RateLimit.RateLimiter.Check` | ironclad/platform/ratelimit.py:257-275 | allowed exactly when the count is within the limit; blocked hits are recorded and counted |
| `RateLimit.StoresAgree` | ironclad/platform/ratelimit.py:132-241 | for every sequence of operations with non-decreasing times the deque and the table return the same results |
| `RateLimit.ClockMustNotStepBack` | ironclad/platform/ratelimit.py:139-149 | with a clock that steps back they differ |
| `RateLimit.BucketIsWindow` | ironclad/platform/ratelimit.py:139-149 | after any run the log of a key agrees with its hits since the last reset for the current and every later window |
| `RateLimit.AllowedExactlyWhen` | ironclad/platform/ratelimit.py:257-275 | a check is allowed exactly when fewer than `limit` hits since the last reset lie in the trailing window |
| `RateLimit.RemainingIsLimitLessHits` | ironclad/platform/ratelimit.py:257-275 | over whole runs what remains is the limit less the hits since the last reset in the trailing window, this one included; a wait is advertised exactly when the check is refused |
| `RateLimit.UnlimitedKeys` | ironclad/platform/ratelimit.py:259-260 | a key without a limit is always admitted and leaves no trace |
| `RateLimit.WindowSafety` | ironclad/platform/ratelimit.py:257-275 | over whole runs, between two resets, every half-open interval of the window's length contains at most `limit` allowed checks of a key |
| `RateLimit.BlockedUntilRelease` | ironclad/platform/ratelimit.py:155-167 | after a blocked check and no further hits a check is allowed exactly from the release instant on |
| `RateLimit.RetryAfterIsTight` | ironclad/platform/ratelimit.py:165-167 | the returned wait ends after the release instant, by at most one second |
| `RateLimit.RetryAfterIsExact` | ironclad/platform/ratelimit.py:155-167 | over whole runs: after a blocked check the next check of the key is allowed exactly from the release instant on, and the returned wait ends after it by at most one second |
| `CodeSpan.NothingEscapes` | ironclad/reporting/markdown_report.py:22-38 | whatever non-empty text is printed reads, by section 6.1 of CommonMark, as one code span, and what follows is read as if it were not there |
| `CodeSpan.ClosesAtTheFence` | ironclad/reporting/markdown_report.py:33-34 | no backtick string inside the content can close the span |
| `CodeSpan.FenceIsShortest` | ironclad/reporting/markdown_report.py:32-34 | the fence is the shortest string of backticks that the text does not hold |
| `CodeSpan.RoundTripExactlyWhen` | ironclad/reporting/markdown_report.py:22-38 | the span's content is the text exactly when the text is not empty, not all spaces and has no line ending |
| `Spdx.ParseExpression` | ironclad/core/spdx_expr.py:69-110 | the loop over the tokens returns the ids, operator, exceptions or error of the specification, for every text |
| `Spdx.BestAndWorst` | ironclad/core/spdx_expr.py:143-149 | the first of the sorted classes is the most permissive, respectively the strictest, of the identifiers |
| `Spdx.ParsedTree` | ironclad/core/spdx_expr.py:69-110 | parsing a printed tree returns its identifiers in order and its one operator, or an error when it mixes both |
| `Spdx.FlatteningKeepsMeaning` | ironclad/core/spdx_expr.py:131-149 | for every tree with any nesting, parentheses and exceptions, the class of its text is the recursive meaning with OR most permissive and AND strictest; a tree that mixes both is unknown, and so is a bare reserved word |
| `LicenseLists.ClassWithoutOr` | ironclad/core/spdx_expr.py:122-149 | licences without OR: blocked exactly when one is on the blocked list, else unknown exactly when one is on no list, else a warning exactly when one is on the warning list, allowed exactly when each is on the allowed list and no other |
| `LicenseLists.ClassWithoutAnd` | ironclad/core/spdx_expr.py:122-149 | licences without AND: allowed exactly when one is on the allowed list and no other, else a warning exactly when one is on the warning list and not blocked, blocked exactly when each is on the blocked list |
| `LicenseLists.UnparsedByAction` | ironclad/core/spdx_expr.py:138-141 | a text that does not parse is unknown, blocked or allowed as the configured action says, whatever the lists hold |
| `LicenseLists.MixedByAction` | ironclad/core/spdx_expr.py:106-141 | so is every expression that mixes AND with OR |
| `LicenseLists.NoLicenseByAction` | ironclad/core/spdx_expr.py:75-77 | so are an empty text and the words for no licence, in any case of letters |
| `Spdx.NotApplicableIsAChoice` | ironclad/core/spdx_expr.py:64-76 | `N/A` is never recognised as reserved: it reads as a choice of two licences |
| `Spdx.DeclaredClass` | ironclad/scanners/spdx.py:48-60 | the class of what the printer declares, for every expression |
| `Spdx.DeclarationFaithfulExactlyWhen` | ironclad/scanners/spdx.py:48-60 | re-parsing the declaration gives the same class under every policy exactly when the expression is unknown, a real OR or AND, or one repeated identifier that does not print as a reserved word |
| `PolicyDocument.ReadGateLoop` | ironclad/core/policy.py:184-192 | the loop over the gates: the accepted limits, the last spelling of a severity winning, and every problem |
| `PolicyDocument.ReadOverrideLoop` | ironclad/core/policy.py:230-234 | the loop over the severity overrides |
| `PolicyDocument.ReadBlockLoop` | ironclad/core/policy.py:284-292 | the loop over the blocked dependencies |
| `PolicyDocument.AcceptedIsValid` | ironclad/core/policy.py:162-355 | every document the reader accepts is a valid policy |
| `PolicyAcceptance.AcceptedExactlyWhen` | ironclad/core/policy.py:162-337 | a document is accepted exactly when its version is 1, its threshold is one of six words in any case, every section holds what it may - counts, severities, engines, actions, disjoint lists, named blocks - and there is no other section |
| `PolicyAcceptance.EmptyDocument` | ironclad/core/policy.py:162-355 | an empty document is the default policy |
| `PolicyAcceptance.NamedBlock` | ironclad/core/policy.py:287-292 | a block that only names a package is for every ecosystem |
| `PolicyDocument.DocumentRoundTrip` | ironclad/core/policy.py:162-386 | every valid policy is accepted back from the document it is stored as, the same but for the order of the ignored rules and an empty engine list |
| `PolicyDocument.EnginesSurviveExactlyWhen` | ironclad/core/policy.py:365 | the stored policy enables the same engines for every configuration exactly when the engine list is not an empty one |
| `PolicyDecision.NullThresholdOpensTheGate` | ironclad/core/policy.py:170-172 | an accepted document with `fail_on: null` lets every finding through the threshold, whatever else it says; with that line deleted it is accepted too, and exactly the critical and high findings that pass the filter fail it |
| `PolicyDecision.FilterFindings` | ironclad/core/policy.py:494-509 | the filter loop returns the passing findings with their severities overridden |
| `PolicyDecision.FilterIsIdempotent` | ironclad/core/policy.py:478-509 | filtering filtered findings changes nothing |
| `PolicyDecision.EvaluatePolicy` | ironclad/core/policy.py:524-641 | the gate: its seven loops give the violations, counts and score of the specification |
| `PolicyGate.KeptExactlyWhen` | ironclad/core/policy.py:494-509 | a finding passes the filter exactly when its rule is not ignored and its confidence is not below the floor |
| `PolicyGate.OverriddenSeverity` | ironclad/core/policy.py:478-491 | it then has the severity its rule is overridden to, and is marked and gets a new fingerprint exactly when that changes it |
| `PolicyGate.PassedExactlyWhen` | ironclad/core/policy.py:524-641 | the findings pass exactly when for each gated severity there are no more than its gate allows, none is at or above the threshold, written out for its six values, the weighted sum is within the maximum, no licence is blocked or, where unknown ones block, unlisted, and no package is named by a block |
| `PolicyGate.ViolationsAdd` | ironclad/core/policy.py:542-624 | how many violations each of the five parts adds |
| `PolicyDecision.BlockedHitsAreMarkers` | ironclad/core/policy.py:606-624 | one violation for each distinct blocked package |
| `PolicyDecision.JudgeIgnoresOrder` | ironclad/core/policy.py:524-641 | the same findings in another order pass or fail alike, with as many violations, equal counts and score |
| `PolicyDecision.BlocksIgnoreEcosystem` | ironclad/core/policy.py:602-612 | a finding is blocked exactly when some block has its package's name, whatever ecosystem the block names |
| `PolicyDecision.BlocksAreScopedExactlyWhen` | ironclad/core/policy.py:602-612 | blocks mean what they say for every finding exactly when each package that some block names is also blocked for every ecosystem |
| `ScanReplay.DiffBaseline` | ironclad/core/baseline.py:281-304 | the split loop: new, suppressed, lapsed and fixed |
| `ScanReplay.BaselineSplit` | ironclad/core/baseline.py:188-304 | the split loses and repeats nothing; suppressed is exactly what an unexpired entry accepts, lapsed are the new ones an expired entry is for, fixed the entries no finding has the fingerprint of |
| `ScanReplay.Dedupe` | ironclad/core/engine.py:128-134 | keeps the first finding of each fingerprint |
| `ScanReplay.RunScanTail` | ironclad/core/engine.py:117-158 | configuration filter, policy filter, de-duplication, baseline split and marking at the end of a scan |
| `ScanReplay.StoredScan.Perform` | ironclad/platform/scanning.py:144-212 | leaves the scan in a final state; on success stores the policy document, the rows and the decision |
| `ScanReplay.StoredScan.PersistFindings` | ironclad/platform/scanning.py:244-283 | one row per finding, baselined exactly when its fingerprint is marked |
| `ScanReplay.StoredScan.Replay` | ironclad/api/routes.py:757-789 | re-parses the stored document and evaluates it over the rows that are not baselined |
| `ScanReplay.GatingIsNew` | ironclad/core/engine.py:136-158 | with and without a baseline the gate looks at the findings no active entry accepts |
| `ScanGate.GatedExactlyWhen` | ironclad/core/engine.py:117-158 | on the findings as the engines give them: the gate looks at exactly those that neither the configured rules and minimum severity nor the policy drop, under the policy's severities, the first of each fingerprint, and not accepted by an unexpired baseline entry |
| `ScanReplay.DecisionReplay` | ironclad/api/routes.py:757-789 | for all findings, configurations, baselines, times and valid policies, the replay over the rows in any order passes or fails as the scan did, with as many violations |
| `Sbom.PurlShape` | ironclad/scanners/sbom.py:85-93 | every branch prints `pkg:type/name@version` |
| `Sbom.PurlOfEcosystem` | ironclad/scanners/sbom.py:53-93 | what the package URL starts with in each of the eight ecosystems, and in all others |
| `Sbom.PurlIsInjective` | ironclad/scanners/sbom.py:53-93 | over the eight ecosystems, with versions free of @, equal package URLs name equal packages |
| `Sbom.CollectComponents` | ironclad/scanners/sbom.py:101-123 | one component per key, from its first dependency, sorted |
| `Sbom.FirstOfEachKeyIsListed` | ironclad/scanners/sbom.py:101-121 | the list holds exactly the components of the dependencies that no earlier one shares ecosystem, lower-case name and version with |
| `Sbom.ListIsAscending` | ironclad/scanners/sbom.py:122-123 | it is strictly ascending in ecosystem, lower-case name and version by character codes |
| `Sbom.BuildSbom` | ironclad/scanners/sbom.py:132-189 | the document of the specification |
| `Sbom.ValidateCyclonedx` | ironclad/scanners/sbom.py:192-243 | the problems of any document, in order, by kind and place |
| `SbomDocuments.AcceptedExactlyWhen` | ironclad/scanners/sbom.py:192-243 | a document has no problems exactly when its header is right, its components are objects with the five fields, a package URL, distinct references and named licences, and its dependencies refer to components or the root |
| `SbomDocuments.DocumentOfComponents` | ironclad/scanners/sbom.py:132-189 | the built document describes the components in their order; asked for dependencies, the root needs each of them and they need nothing |
| `SbomDocuments.ChoiceIsListed` | ironclad/scanners/sbom.py:153-161 | a choice of licences is listed licence by licence, any other expression as one text |
| `Sbom.ReferencesAreClosed` | ironclad/scanners/sbom.py:184-188 | every dependency reference is a known component |
| `Sbom.BuiltIsValidExactlyWhen` | ironclad/scanners/sbom.py:101-243 | the validator accepts a built document exactly when package URLs tell the kept dependencies apart |
| `Sbom.GeneratorMeetsValidator` | ironclad/scanners/sbom.py:101-243 | over the eight ecosystems with versions free of @ every dependency list builds a document without problems |
| `Sbom.UnknownEcosystemsCollide` | ironclad/scanners/sbom.py:87 | two ecosystems outside the map with the same name and version are refused |
| `Sbom.AtCollides` | ironclad/scanners/sbom.py:85-93 | an @ inside a version and the same @ inside a name are refused together |

## Left out

- Parsing of manifests, lockfiles, YAML, JSON, XML and Python source: the model starts from parsed dependencies, documents and trees.
- Files, HTTP, SQL, mail, clocks and environment variables: times, documents, rows and handlers' effects are parameters.
- Characters: digits, letters and case mapping are ASCII; Unicode digits in `\d`, the four letters that a case-insensitive class also matches and full case folding are not modelled.
- The rest of OSV import (severity, CVE, summary, `record_to_entries`, `build_database`, payload sniffing): tables filled entry by entry.
- `spec_is_pinned`, the manifest parsers and the advisory lookup: whether a dependency is pinned and which advisories it meets are given.
- The text of findings, problems and violations: a problem is named by its kind and place, a finding by its rule, site and source.
- Osv.RangeAgrees: events must ascend and alternate, and a `limit` may only close the last interval, as the schema asks of records; other event lists are compiled by the model but not compared with the schema.
- RecordClaims.RecordClaimExactlyWhen: the bounds of a declaration are dotted numbers behind `<`, `<=`, `>`, `>=` or `=`; prerelease bounds, `==` and a leading `v` are left to the evaluator's own results.
- TaintSoundness.NoTaintedShellCallIsMissed: a call of a plain function returns fresh data in the semantics, as the visitor looks at one function at a time.
- Statements other than assignments, expression statements, `if` and `while` in the taint visitor, and `StructuralVisitor`: they add marks or findings in the same way.
- Default values and decorators of functions, nested functions, the module-level pass and the final de-duplication of `scan_python_flows`, import collection and the structural patterns.
- PythonFlows.BreadthFirstIsHarmless: covers flat bodies; with nested bodies the order does harm, as `PythonFlows.DeepAssignmentIsMissed` shows.
- The race between the two statements of a claim: a claim is one atomic step, as its docstring promises; handlers touch the data and not the job table.
- JobBatches.Worker.Run: a worker without `max_jobs` polls forever, and an exception out of a batch, such as a lost database, is not modelled.
- The `retry_backoff` argument of a single `finish` call, `depth`, and registering a handler: the queue is built with its handlers.
- The limiter's answer when its store raises, and its lock: one operation at a time, none fails.
- CodeSpan.RoundTripExactlyWhen: the text before the span holds no backtick and no backslash; autolinks and raw HTML, which can also take backticks, are not modelled, nor is `md_text`.
- Spdx.FlatteningKeepsMeaning: trees print with single spaces around the operator words, in capitals; the parser's model takes any spacing and case.
- PolicyDocument.DocumentRoundTrip: keys of mappings are strings, and the Python text of a list, mapping or float where a string is expected is a fixed placeholder.
- `Policy.load`, `apply_to_config` except for the engine list, path globs, `create_baseline`, `prune_baseline` and the file formats of baselines.
- ScanReplay.StoredScan.Perform: a finding is a value, so marking the suppressed ones updates the list instead of shared objects; events, metrics, the SBOM rows and the columns derived from the result are left out, as is a scan without a policy.
- PolicyDecision.EvaluatePolicy: the sorting of findings and violations only arranges the list of violations, and is left out; `PolicyDecision.JudgeIgnoresOrder` says why it does not matter.
- ScanReplay.DecisionReplay: engines hand over findings without the `baselined` mark, as all of them do, and JSON returns the `extra` mapping it was given; the snippet, cut at 2000 characters in a row, plays no part in the decision.
- The serial number, time stamps and tool data of the SBOM, its SPDX counterpart (`build_spdx`, `validate_spdx`) and the license findings.
- RBAC, tenancy, configuration merging, dashboards, integrations, the other report formats, IaC, secrets and the rule engine: independent of the results above.
