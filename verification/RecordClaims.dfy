/** Range reports on any record: when a declaration is reported, and exactly when the printed claim -
    every version the declaration permits is affected - is true. */
module RecordClaims {
  import opened Strings
  import opened Versions
  import opened RangeText
  import opened Specs
  import opened SpecForms
  import opened LeastVersions
  import opened OsvAgreement
  import opened Reporting
  import Osv

  /** The entry stored for a record. */
  function RecordAdvisory(id: string, ranges: seq<Osv.Range>, versions: seq<string>): Advisory {
    Advisory(id, Osv.AffectedText(ranges, versions), Osv.FirstFixed(ranges))
  }

  // ----- when a range is reported

  lemma CandidateNotEmpty(spec: string)
    ensures MinimumCandidate(spec).Some? ==> MinimumCandidate(spec).value != ""
  {
    hide RunLength, Strip, NoVersionWord;
    if MinimumCandidate(spec).Some? {
      var n := HasFirstDigit(Strip(spec));
      FirstDigit(Strip(spec), n);
      NumberNotEmpty(Strip(spec)[n..]);
    }
  }

  lemma NumberNotEmpty(s: string)
    requires s != "" && IsDigit(s[0])
    ensures NumberPrefix(s, 3) != ""
  {
  }

  /** A translated declaration is reported exactly when its candidate is affected and the stored
      fix, if there is one, is excluded. */
  lemma ReportedExactlyWhen(name: string, spec: string, advisory: Advisory)
    requires NormalizeSpec(spec).Comparators?
    ensures Decide(RangeDependency(name, spec), advisory).Report?
       <==> (&& MinimumCandidate(spec).Some? && Satisfies(MinimumCandidate(spec).value, advisory.affected)
             && (Strip(advisory.fixedIn) != "" ==> !Admitted(spec, Strip(advisory.fixedIn))))
  {
    CandidateNotEmpty(spec);
    if spec == "" { EmptyIsUnknown(); }
    hide Satisfies, NormalizeSpec, Strip, MinimumCandidate;
  }

  predicate NoneHolds(lists: seq<seq<Bound>>, k: Key) { forall i | 0 <= i < |lists| :: !AllBoundsHold(lists[i], k) }

  lemma AffectedCandidate(spec: string, nums: seq<nat>, affected: string)
    requires FirstNumberIs(spec, nums) && nums != []
    ensures Satisfies(MinimumCandidate(spec).value, affected) == Satisfies(Dotted(nums), affected)
  {
    hide MinimumCandidate, KeyOf, Dotted;
    KeyOfDotted(nums);
    SatisfiesOnKeys(MinimumCandidate(spec).value, Dotted(nums), affected);
  }

  lemma SatisfiesOnKeys(v: string, w: string, affected: string)
    requires KeyOf(v) == KeyOf(w)
    ensures Satisfies(v, affected) == Satisfies(w, affected)
  {
    hide KeyOf, KeyLess, Tokens, SplitBars;
    forall t ensures TokenHolds(v, t) == TokenHolds(w, t) { SameToken(v, w, t); }
    hide TokenHolds;
    assert forall a :: AllHold(v, Tokens(a)) == AllHold(w, Tokens(a));
  }

  lemma SameToken(v: string, w: string, token: string)
    requires KeyOf(v) == KeyOf(w)
    ensures TokenHolds(v, token) == TokenHolds(w, token)
  {
    hide KeyOf, KeyLess, TokenOp, TokenVersion, Strip;
  }

  /** A range, alternatives included, is reported exactly when the first number of its text is
      affected and no alternative admits the fix, if one is stored. */
  lemma RangeReportExactlyWhen(name: string, parts: seq<string>, lists: seq<seq<Bound>>, advisory: Advisory)
    requires AreAlternatives(parts, lists) && FirstNumberIs(parts[0], lists[0][0].nums)
    ensures Decide(RangeDependency(name, Join("||", parts)), advisory).Report?
       <==> (&& Satisfies(Dotted(lists[0][0].nums), advisory.affected)
             && (Strip(advisory.fixedIn) != "" ==> NoneHolds(lists, KeyOf(Strip(advisory.fixedIn)))))
  {
    FirstNums(parts, lists);
    FirstOfAlternatives(parts, lists);
    var spec := Join("||", parts);
    hide *;
    AlternativesTranslate(parts, lists);
    ReportedExactlyWhen(name, spec, advisory);
    AffectedCandidate(spec, lists[0][0].nums, advisory.affected);
    CandidateGiven(spec, lists[0][0].nums);
    FixExcluded(parts, lists, Strip(advisory.fixedIn));
  }

  lemma CandidateGiven(spec: string, nums: seq<nat>)
    requires FirstNumberIs(spec, nums)
    ensures MinimumCandidate(spec).Some?
  {
  }

  lemma FirstNums(parts: seq<string>, lists: seq<seq<Bound>>)
    requires AreAlternatives(parts, lists)
    ensures lists != [] && lists[0] != [] && lists[0][0].nums != []
  {
    hide NormalizeSpec;
    assert TranslatesTo(parts[0], lists[0]) && lists[0][0] in lists[0];
  }

  lemma FirstOfAlternatives(parts: seq<string>, lists: seq<seq<Bound>>)
    requires AreAlternatives(parts, lists) && lists[0] != [] && FirstNumberIs(parts[0], lists[0][0].nums)
    ensures FirstNumberIs(Join("||", parts), lists[0][0].nums)
  {
    hide MinimumCandidate, KeyOf, Join, AreAlternatives;
    CandidateOfAlternatives(parts, lists);
  }

  lemma FixExcluded(parts: seq<string>, lists: seq<seq<Bound>>, fix: string)
    requires AreAlternatives(parts, lists)
    ensures !Admitted(Join("||", parts), fix) <==> NoneHolds(lists, KeyOf(fix))
  {
    hide AreAlternatives, Admitted, KeyOf, AllBoundsHold, Join;
    AlternativesAdmit(parts, lists, fix);
  }

  // ----- the claim

  /** Every version the declaration permits is affected. */
  ghost predicate Claim(spec: string, affected: string) { forall v | Admitted(spec, v) :: Satisfies(v, affected) }

  predicate Numbered(bs: seq<Bound>) { bs != [] && forall b | b in bs :: b.nums != [] }

  lemma {:induction false} ListsOf(parts: seq<string>, lists: seq<seq<Bound>>)
    requires AreAlternatives(parts, lists)
    ensures parts != [] && |lists| == |parts| && forall i | 0 <= i < |lists| :: Numbered(lists[i])
  {
    hide NormalizeSpec;
    assert forall i | 0 <= i < |parts| :: TranslatesTo(parts[i], lists[i]);
  }

  ghost predicate ListInside(bs: seq<Bound>, affected: string) {
    forall v: string | AllBoundsHold(bs, KeyOf(v)) :: Satisfies(v, affected)
  }

  /** The claim on a declaration is the claim on each of its alternatives. */
  lemma ClaimOfLists(parts: seq<string>, lists: seq<seq<Bound>>, affected: string)
    requires AreAlternatives(parts, lists)
    ensures Claim(Join("||", parts), affected) <==> forall i | 0 <= i < |lists| :: ListInside(lists[i], affected)
  {
    hide AreAlternatives, Admitted, Satisfies, KeyOf, AllBoundsHold, Join;
    var spec := Join("||", parts);
    forall v: string
      ensures Admitted(spec, v) == exists i | 0 <= i < |lists| :: AllBoundsHold(lists[i], KeyOf(v))
    {
      AlternativesAdmit(parts, lists, v);
    }
    if Claim(spec, affected) {
      forall i | 0 <= i < |lists| ensures ListInside(lists[i], affected) {
        forall v: string | AllBoundsHold(lists[i], KeyOf(v)) ensures Satisfies(v, affected) {
          assert Admitted(spec, v);
        }
      }
    }
  }

  // ----- any record

  lemma AtOrAboveBound(b: Bound, k: Key)
    requires BoundHolds(b, k) && !IsUpper(b)
    ensures KeyAtMost(ReleaseKey(b.nums), k)
  {
    hide KeyLess, ReleaseKey;
    KeyOrder(ReleaseKey(b.nums), k, k);
  }

  lemma BoundsUpTo(bs: seq<Bound>, k: Key)
    requires AllBoundsHold(bs, k)
    ensures forall b | b in bs && !IsUpper(b) :: KeyAtMost(ReleaseKey(b.nums), k)
  {
    hide KeyLess, ReleaseKey, BoundHolds;
    forall b | b in bs && !IsUpper(b) ensures KeyAtMost(ReleaseKey(b.nums), k) {
      assert BoundHolds(b, k);
      AtOrAboveBound(b, k);
    }
  }

  /** What lies above the lower bounds and not above an admitted version is admitted. */
  lemma AdmittedBetween(bs: seq<Bound>, k: Key, s: Key, v: Key)
    requires forall b | b in bs && !IsUpper(b) :: KeyAtMost(ReleaseKey(b.nums), k)
    requires KeyLess(k, s) && KeyAtMost(s, v) && AllBoundsHold(bs, v)
    ensures AllBoundsHold(bs, s)
  {
    hide KeyLess, ReleaseKey, BoundHolds;
    forall b | b in bs ensures BoundHolds(b, s) {
      assert BoundHolds(b, v);
      HoldsBetween(b, k, s, v);
    }
  }

  lemma HoldsBetween(b: Bound, k: Key, s: Key, v: Key)
    requires !IsUpper(b) ==> KeyAtMost(ReleaseKey(b.nums), k)
    requires KeyLess(k, s) && KeyAtMost(s, v) && BoundHolds(b, v)
    ensures BoundHolds(b, s)
  {
    hide KeyLess, ReleaseKey;
    var r := ReleaseKey(b.nums);
    KeyOrder(r, k, s);
    KeyOrder(s, v, r);
    KeyOrder(k, s, v);
    KeyOrder(s, v, k);
  }

  /** Every end of the record that the bounds admit is affected: where one interval stops, another
      one goes on. */
  predicate EndsAffected(bs: seq<Bound>, ranges: seq<Osv.Range>, versions: seq<string>) {
    forall s | s in Ends(ranges, versions) && AllBoundsHold(bs, KeyOf(s)) ::
      Satisfies(s, Osv.AffectedText(ranges, versions))
  }

  /** From an affected version below everything admitted, only the ends of the record matter. */
  lemma InsideFrom(bs: seq<Bound>, ranges: seq<Osv.Range>, versions: seq<string>, p: string)
    requires Osv.WellFormed(ranges, versions) && Satisfies(p, Osv.AffectedText(ranges, versions))
    requires forall b | b in bs && !IsUpper(b) :: KeyAtMost(ReleaseKey(b.nums), KeyOf(p))
    requires forall v: string | AllBoundsHold(bs, KeyOf(v)) :: KeyAtMost(KeyOf(p), KeyOf(v))
    ensures ListInside(bs, Osv.AffectedText(ranges, versions)) <==> EndsAffected(bs, ranges, versions)
  {
    var text := Osv.AffectedText(ranges, versions);
    hide Osv.WellFormed, Satisfies, KeyOf, KeyLess, ReleaseKey, AllBoundsHold, Ends, Osv.AffectedText;
    if EndsAffected(bs, ranges, versions) {
      forall v: string | AllBoundsHold(bs, KeyOf(v)) ensures Satisfies(v, text) {
        if !Satisfies(v, text) {
          var s := TextEnds(ranges, versions, p, v);
          AdmittedBetween(bs, KeyOf(p), KeyOf(s), KeyOf(v));
        }
      }
    }
  }

  /** The least version the bounds admit, if there is one, is affected, and so is every end of the
      record they admit. */
  predicate FitsRecord(bs: seq<Bound>, ranges: seq<Osv.Range>, versions: seq<string>)
    requires bs != []
  {
    && (AllBoundsHold(bs, KeyOf(Start(bs))) ==> Satisfies(Start(bs), Osv.AffectedText(ranges, versions)))
    && EndsAffected(bs, ranges, versions)
  }

  lemma FitsRecordExactlyWhen(bs: seq<Bound>, ranges: seq<Osv.Range>, versions: seq<string>)
    requires Osv.WellFormed(ranges, versions) && Numbered(bs)
    ensures ListInside(bs, Osv.AffectedText(ranges, versions)) <==> FitsRecord(bs, ranges, versions)
  {
    hide Osv.WellFormed, Satisfies, KeyOf, KeyLess, ReleaseKey, AllBoundsHold, Ends, Osv.AffectedText, Start;
    var s, text := Start(bs), Osv.AffectedText(ranges, versions);
    forall v: string | AllBoundsHold(bs, KeyOf(v))
      ensures KeyAtMost(KeyOf(s), KeyOf(v)) && AllBoundsHold(bs, KeyOf(s))
    {
      StartIsLeast(bs, v);
    }
    if AllBoundsHold(bs, KeyOf(s)) && Satisfies(s, text) {
      BoundsUpTo(bs, KeyOf(s));
      InsideFrom(bs, ranges, versions, s);
    }
  }

  /** For every record the schema allows - any number of ranges, intervals and listed versions - and
      any alternatives: every permitted version is affected exactly when every alternative fits. */
  lemma RecordClaimExactlyWhen(parts: seq<string>, lists: seq<seq<Bound>>, ranges: seq<Osv.Range>,
          versions: seq<string>)
    requires AreAlternatives(parts, lists) && Osv.WellFormed(ranges, versions)
    ensures forall i | 0 <= i < |lists| :: lists[i] != []
    ensures Claim(Join("||", parts), Osv.AffectedText(ranges, versions))
       <==> forall i | 0 <= i < |lists| :: FitsRecord(lists[i], ranges, versions)
  {
    ListsOf(parts, lists);
    NumberedLists(lists);
    hide *;
    ClaimOfLists(parts, lists, Osv.AffectedText(ranges, versions));
    forall i | 0 <= i < |lists|
      ensures ListInside(lists[i], Osv.AffectedText(ranges, versions)) == FitsRecord(lists[i], ranges, versions)
    {
      NumberedAt(lists, i);
      FitsRecordExactlyWhen(lists[i], ranges, versions);
    }
  }

  lemma NumberedAt(lists: seq<seq<Bound>>, i: nat)
    requires i < |lists| && forall k | 0 <= k < |lists| :: Numbered(lists[k])
    ensures Numbered(lists[i])
  {
    hide Numbered;
  }

  lemma NumberedLists(lists: seq<seq<Bound>>)
    requires forall i | 0 <= i < |lists| :: Numbered(lists[i])
    ensures forall i | 0 <= i < |lists| :: lists[i] != []
  {
  }

  lemma PartTranslates(parts: seq<string>, lists: seq<seq<Bound>>, i: nat)
    requires AreAlternatives(parts, lists) && i < |parts|
    ensures TranslatesTo(parts[i], lists[i])
  {
    hide TranslatesTo;
  }

  lemma NoneHoldsIs(lists: seq<seq<Bound>>, k: Key)
    ensures NoneHolds(lists, k) <==> forall i | 0 <= i < |lists| :: !AllBoundsHold(lists[i], k)
  {
    hide AllBoundsHold;
  }

  // ----- one declaration without alternatives

  lemma Alone(spec: string, bs: seq<Bound>)
    requires TranslatesTo(spec, bs)
    ensures AreAlternatives([spec], [bs]) && Join("||", [spec]) == spec && Numbered(bs)
  {
    hide NormalizeSpec, Printed;
  }

  lemma ClaimAlone(spec: string, bs: seq<Bound>, affected: string)
    requires TranslatesTo(spec, bs)
    ensures Numbered(bs) && (Claim(spec, affected) <==> ListInside(bs, affected))
  {
    Alone(spec, bs);
    hide AreAlternatives, TranslatesTo, Claim, Join, ListInside, Numbered;
    ClaimOfLists([spec], [bs], affected);
    assert [bs][0] == bs;
  }

  /** What a report on one declaration rests on. */
  lemma ReportAlone(name: string, spec: string, bs: seq<Bound>, advisory: Advisory)
    requires Declares(spec, bs)
    ensures Decide(RangeDependency(name, spec), advisory).Report?
       <==> (&& Satisfies(Dotted(bs[0].nums), advisory.affected)
             && (Strip(advisory.fixedIn) != "" ==> !AllBoundsHold(bs, KeyOf(Strip(advisory.fixedIn)))))
  {
    DeclaresTranslates(spec, bs);
    Alone(spec, bs);
    FirstIn(bs);
    FirstNumberOf(spec, bs);
    hide *;
    RangeReportExactlyWhen(name, [spec], [bs], advisory);
    OneList(bs, KeyOf(Strip(advisory.fixedIn)));
  }

  lemma DeclaresTranslates(spec: string, bs: seq<Bound>)
    requires Declares(spec, bs)
    ensures TranslatesTo(spec, bs)
  {
    hide TranslatesTo;
  }

  lemma OneList(bs: seq<Bound>, k: Key)
    ensures NoneHolds([bs], k) <==> !AllBoundsHold(bs, k)
  {
    hide AllBoundsHold;
    assert [bs][0] == bs;
  }

  lemma FirstIn(bs: seq<Bound>)
    requires Numbered(bs)
    ensures bs != [] && bs[0].nums != []
  {
    assert bs[0] in bs;
  }

  lemma FirstNumberOf(spec: string, bs: seq<Bound>)
    requires Declares(spec, bs) && Numbered(bs)
    ensures FirstNumberIs(spec, bs[0].nums)
  {
  }

  /** The list opens with its lower bound, or with the only version it permits. */
  predicate OpensWithLowerBound(bs: seq<Bound>) {
    && Numbered(bs) && !IsUpper(bs[0])
    && forall b | b in bs && !IsUpper(b) :: KeyAtMost(ReleaseKey(b.nums), ReleaseKey(bs[0].nums))
  }

  lemma OpensAtFirst(bs: seq<Bound>)
    requires OpensWithLowerBound(bs)
    ensures forall k | AllBoundsHold(bs, k) :: KeyAtMost(ReleaseKey(bs[0].nums), k)
  {
    hide KeyLess, ReleaseKey, BoundHolds;
    assert bs[0] in bs;
    forall k | AllBoundsHold(bs, k) ensures KeyAtMost(ReleaseKey(bs[0].nums), k) {
      AtOrAboveBound(bs[0], k);
    }
  }

  lemma OpensNumbered(bs: seq<Bound>)
    requires OpensWithLowerBound(bs)
    ensures Numbered(bs) && forall b | b in bs && !IsUpper(b) :: KeyAtMost(ReleaseKey(b.nums), ReleaseKey(bs[0].nums))
  {
    hide KeyLess, ReleaseKey;
  }

  /** For a declaration that opens with its lower bound and any record: given a report, the claim is
      true exactly when every end of the record the declaration admits is affected. */
  lemma OpenedRecordExactlyWhen(name: string, spec: string, bs: seq<Bound>, id: string, ranges: seq<Osv.Range>,
          versions: seq<string>)
    requires Osv.WellFormed(ranges, versions) && Declares(spec, bs) && OpensWithLowerBound(bs)
    requires Decide(RangeDependency(name, spec), RecordAdvisory(id, ranges, versions)).Report?
    ensures Claim(spec, Osv.AffectedText(ranges, versions)) <==> EndsAffected(bs, ranges, versions)
  {
    DeclaresTranslates(spec, bs);
    OpensAtFirst(bs);
    OpensNumbered(bs);
    FirstIn(bs);
    RecordText(id, ranges, versions);
    hide *;
    ReportAlone(name, spec, bs, RecordAdvisory(id, ranges, versions));
    KeyOfDotted(bs[0].nums);
    InsideFrom(bs, ranges, versions, Dotted(bs[0].nums));
    ClaimAlone(spec, bs, Osv.AffectedText(ranges, versions));
  }

  lemma RecordText(id: string, ranges: seq<Osv.Range>, versions: seq<string>)
    ensures RecordAdvisory(id, ranges, versions).affected == Osv.AffectedText(ranges, versions)
    ensures RecordAdvisory(id, ranges, versions).fixedIn == Osv.FirstFixed(ranges)
  {
    hide Osv.AffectedText, Osv.FirstFixed;
  }
}
