/** Which of the engines' findings a scan keeps, marks and hands to the gate, stated on the findings as
    the engines gave them. */
module ScanGate {
  import opened Strings
  import opened PolicyDecision
  import opened ScanReplay
  import PolicyGate
  import D = PolicyDocument

  /** The severity is at or above the configured minimum; a word that is no severity is no minimum. */
  predicate ReachesMinimum(s: Severity, minimum: string) {
    match minimum
    case "critical" => s == Critical
    case "high" => s == Critical || s == High
    case "medium" => s == Critical || s == High || s == Medium
    case "low" => s != Info
    case _ => true
  }

  lemma MinimumIsReached(s: Severity, minimum: string)
    ensures SeverityAtLeast(s, minimum) <==> ReachesMinimum(s, minimum)
  {
  }

  /** Neither the configuration nor the policy drops the finding: the severity the engine gave it reaches
      the configured minimum, and its confidence the policy's floor. */
  predicate Kept(f: Finding, c: Config, p: D.Policy) {
    && f.ruleId !in c.ignoreRules && f.ruleId !in p.ignoreRules
    && ReachesMinimum(f.severity, c.minSeverity)
    && (p.minConfidence == "medium" ==> f.confidence == "medium" || f.confidence == "high")
    && (p.minConfidence == "high" ==> f.confidence == "high")
  }

  lemma KeptPasses(f: Finding, c: Config, p: D.Policy)
    requires D.ValidPolicy(p)
    ensures Configured(f, c) && Passes(f, p) <==> Kept(f, c, p)
  {
    hide D.ValidPolicy, ReachesMinimum;
    PolicyGate.KeptExactlyWhen(f, p);
    MinimumIsReached(f.severity, c.minSeverity);
  }

  /** The i-th finding is kept, and under the policy's severities no earlier kept one has its fingerprint,
      nor is that among the given ones. */
  predicate IsFirst(all: seq<Finding>, i: nat, c: Config, p: D.Policy, seen: set<string>)
    requires D.ValidPolicy(p) && i < |all|
  {
    && Kept(all[i], c, p) && Override(all[i], p).fingerprint !in seen
    && forall j | 0 <= j < i && Kept(all[j], c, p) ::
         Override(all[j], p).fingerprint != Override(all[i], p).fingerprint
  }

  ghost predicate IsListed(g: Finding, all: seq<Finding>, c: Config, p: D.Policy, seen: set<string>)
    requires D.ValidPolicy(p)
  {
    exists i: nat :: i < |all| && IsFirst(all, i, c, p, seen) && Override(all[i], p) == g
  }

  lemma FirstInRest(all: seq<Finding>, i: nat, c: Config, p: D.Policy, seen: set<string>)
    requires D.ValidPolicy(p) && 0 < i < |all|
    ensures var seen' := if Kept(all[0], c, p) then seen + {Override(all[0], p).fingerprint} else seen;
            IsFirst(all[1..], i - 1, c, p, seen') <==> IsFirst(all, i, c, p, seen)
  {
    hide D.ValidPolicy, Kept, Override;
    assert forall j | 0 <= j < i - 1 :: all[1..][j] == all[j + 1];
    assert forall j | 1 <= j < i :: all[j] == all[1..][j - 1];
  }

  lemma ListedInRest(g: Finding, all: seq<Finding>, c: Config, p: D.Policy, seen: set<string>)
    requires D.ValidPolicy(p) && all != []
    ensures var seen' := if Kept(all[0], c, p) then seen + {Override(all[0], p).fingerprint} else seen;
            IsListed(g, all, c, p, seen) <==>
            (IsFirst(all, 0, c, p, seen) && g == Override(all[0], p)) || IsListed(g, all[1..], c, p, seen')
  {
    var seen' := if Kept(all[0], c, p) then seen + {Override(all[0], p).fingerprint} else seen;
    hide D.ValidPolicy, Override, IsFirst, Kept;
    if i: nat :| i < |all| && IsFirst(all, i, c, p, seen) && Override(all[i], p) == g {
      if i > 0 {
        FirstInRest(all, i, c, p, seen);
        assert IsFirst(all[1..], i - 1, c, p, seen') && all[1..][i - 1] == all[i];
      }
    }
    if i: nat :| i < |all[1..]| && IsFirst(all[1..], i, c, p, seen') && Override(all[1..][i], p) == g {
      FirstInRest(all, i + 1, c, p, seen);
      assert IsFirst(all, i + 1, c, p, seen) && all[1..][i] == all[i + 1];
    }
  }

  lemma FilterStep(all: seq<Finding>, c: Config, p: D.Policy)
    requires D.ValidPolicy(p) && all != []
    ensures Filtered(ByConfig(all, c), p) ==
            (if Kept(all[0], c, p) then [Override(all[0], p)] else []) + Filtered(ByConfig(all[1..], c), p)
  {
    KeptPasses(all[0], c, p);
    hide D.ValidPolicy, Override, Kept, Configured, Passes;
    var rest := ByConfig(all[1..], c);
    assert ([all[0]] + rest)[1..] == rest;
    assert [] + Filtered(rest, p) == Filtered(rest, p);
  }

  lemma DedupedStep(g: Finding, rest: seq<Finding>, seen: set<string>)
    ensures Deduped([g] + rest, seen) ==
            (if g.fingerprint in seen then [] else [g]) + Deduped(rest, seen + {g.fingerprint})
  {
    assert ([g] + rest)[1..] == rest;
    if g.fingerprint in seen {
      assert seen + {g.fingerprint} == seen;
      assert [] + Deduped(rest, seen) == Deduped(rest, seen);
    }
  }

  lemma {:induction false} DedupedAreListed(all: seq<Finding>, c: Config, p: D.Policy, seen: set<string>, g: Finding)
    requires D.ValidPolicy(p)
    ensures g in Deduped(Filtered(ByConfig(all, c), p), seen) <==> IsListed(g, all, c, p, seen)
    decreases |all|
  {
    hide D.ValidPolicy, Override, Kept, Filtered, ByConfig, Deduped, IsListed;
    if all == [] {
      NothingListed(g, c, p, seen);
    } else {
      var a, rest := Override(all[0], p), Filtered(ByConfig(all[1..], c), p);
      FilterStep(all, c, p);
      ListedInRest(g, all, c, p, seen);
      if Kept(all[0], c, p) {
        DedupedAreListed(all[1..], c, p, seen + {a.fingerprint}, g);
        DedupedStep(a, rest, seen);
      } else {
        DedupedAreListed(all[1..], c, p, seen, g);
        assert [] + rest == rest;
      }
    }
  }

  lemma NothingListed(g: Finding, c: Config, p: D.Policy, seen: set<string>)
    requires D.ValidPolicy(p)
    ensures Deduped(Filtered(ByConfig([], c), p), seen) == [] && !IsListed(g, [], c, p, seen)
  {
    hide D.ValidPolicy;
  }

  /** The gate looks at exactly the findings that neither the configuration nor the policy drops, under
      the policy's severities, the first of each fingerprint, and - with a baseline - not accepted by an
      entry that has not expired. */
  lemma GatedExactlyWhen(all: seq<Finding>, c: Config, p: D.Policy, entries: seq<BaselineEntry>, now: real, g: Finding)
    requires D.ValidPolicy(p)
    ensures g in EndOfScan(all, c, p, entries, now).newFindings <==>
            && IsListed(g, all, c, p, {})
            && (c.baselineApplied ==> forall e | e in entries :: !Accepts(e, g, now))
  {
    hide D.ValidPolicy, Filtered, ByConfig, Deduped, IsListed, Marked, NotIn;
    var used := if c.baselineApplied then entries else [];
    DedupedAreListed(all, c, p, {}, g);
    InMembers(Deduped(Filtered(ByConfig(all, c), p), {}), Active(used, now));
    ActiveAccepts(used, g, now);
  }

  lemma ActiveAccepts(entries: seq<BaselineEntry>, g: Finding, now: real)
    ensures g.fingerprint in Active(entries, now) <==> exists e | e in entries :: Accepts(e, g, now)
  {
  }
}
