/** The class of a licence expression in terms of the three lists of a policy: what the lists must
    hold for a choice of licences, for licences that all bind, and for a text that names none. */
module LicenseLists {
  import opened Strings
  import opened Spdx

  /** The licences a tree names. */
  function Leaves(e: License): set<string> {
    match e
    case Id(id) => {id}
    case With(id, _) => {id}
    case Group(inner) => Leaves(inner)
    case Or(left, right, _) => Leaves(left) + Leaves(right)
    case And(left, right) => Leaves(left) + Leaves(right)
  }

  lemma SingleByLists(sets: PolicySets, id: string)
    ensures var c := ClassifySingle(sets, id);
            && (c == Blocked <==> id in sets.blocked)
            && (c == Warning <==> id in sets.warning - sets.blocked)
            && (c == Allowed <==> id in sets.allowed - sets.warning - sets.blocked)
            && (c == Unknown <==> id !in sets.allowed + sets.warning + sets.blocked)
  {
  }

  /** Which class binds when all licences do. */
  predicate AllBind(sets: PolicySets, leaves: set<string>, c: Class) {
    var listed := sets.allowed + sets.warning;
    && (c == Blocked <==> leaves * sets.blocked != {})
    && (c == Unknown <==> leaves !! sets.blocked && !(leaves <= listed))
    && (c == Warning <==> leaves !! sets.blocked && leaves <= listed && leaves * sets.warning != {})
    && (c == Allowed <==> leaves <= sets.allowed - sets.warning - sets.blocked)
  }

  /** Which class is left when one licence can be chosen. */
  predicate OneIsChosen(sets: PolicySets, leaves: set<string>, c: Class) {
    && (c == Allowed <==> leaves * (sets.allowed - sets.warning - sets.blocked) != {})
    && (c == Warning <==> leaves !! (sets.allowed - sets.warning - sets.blocked)
                          && leaves * (sets.warning - sets.blocked) != {})
    && (c == Unknown <==> leaves !! (sets.allowed + sets.warning - sets.blocked) && !(leaves <= sets.blocked))
    && (c == Blocked <==> leaves <= sets.blocked)
  }

  lemma BindOne(sets: PolicySets, id: string)
    ensures AllBind(sets, {id}, ClassifySingle(sets, id)) && OneIsChosen(sets, {id}, ClassifySingle(sets, id))
  {
    SingleByLists(sets, id);
    hide ClassifySingle;
    assert forall s: set<string> :: {id} <= s <==> id in s;
    assert forall s: set<string> :: {id} * s != {} <==> id in {id} * s;
  }

  lemma BindBoth(sets: PolicySets, a: set<string>, c: Class, b: set<string>, d: Class)
    requires AllBind(sets, a, c) && AllBind(sets, b, d)
    ensures AllBind(sets, a + b, Stricter(c, d))
  {
    assert forall s: set<string> :: (a + b) * s == a * s + b * s;
  }

  lemma ChooseOfBoth(sets: PolicySets, a: set<string>, c: Class, b: set<string>, d: Class)
    requires OneIsChosen(sets, a, c) && OneIsChosen(sets, b, d)
    ensures OneIsChosen(sets, a + b, MorePermissive(c, d))
  {
    assert forall s: set<string> :: (a + b) * s == a * s + b * s;
  }

  lemma {:induction false} MeaningByLists(sets: PolicySets, e: License)
    ensures !UsesOr(e) ==> AllBind(sets, Leaves(e), Meaning(sets, e))
    ensures !UsesAnd(e) ==> OneIsChosen(sets, Leaves(e), Meaning(sets, e))
  {
    hide AllBind, OneIsChosen, ClassifySingle, MorePermissive, Stricter;
    match e
    case Id(id) => BindOne(sets, id);
    case With(id, _) => BindOne(sets, id);
    case Group(inner) => MeaningByLists(sets, inner);
    case Or(left, right, _) =>
      MeaningByLists(sets, left);
      MeaningByLists(sets, right);
      if !UsesAnd(e) {
        ChooseOfBoth(sets, Leaves(left), Meaning(sets, left), Leaves(right), Meaning(sets, right));
      }
    case And(left, right) =>
      MeaningByLists(sets, left);
      MeaningByLists(sets, right);
      if !UsesOr(e) { BindBoth(sets, Leaves(left), Meaning(sets, left), Leaves(right), Meaning(sets, right)); }
  }

  /** Licences without OR: the printed expression is blocked exactly when one of them is on the
      blocked list; else unknown exactly when one is on no list; else a warning exactly when one is
      on the warning list; and allowed exactly when each is on the allowed list and no other. */
  lemma ClassWithoutOr(sets: PolicySets, e: License)
    requires ValidTree(e) && !ReservedTree(e) && !UsesOr(e)
    ensures AllBind(sets, Leaves(e), Classify(sets, Print(e)))
  {
    FlatteningKeepsMeaning(sets, e);
    MeaningByLists(sets, e);
    hide AllBind, Classify, Meaning, Print, ValidTree, UsesOr;
  }

  /** Licences without AND: allowed exactly when one of them is on the allowed list and no other; else
      a warning exactly when one is on the warning list and not on the blocked one; and blocked
      exactly when each is on the blocked list. */
  lemma ClassWithoutAnd(sets: PolicySets, e: License)
    requires ValidTree(e) && !ReservedTree(e) && !UsesAnd(e)
    ensures OneIsChosen(sets, Leaves(e), Classify(sets, Print(e)))
  {
    FlatteningKeepsMeaning(sets, e);
    MeaningByLists(sets, e);
    hide OneIsChosen, Classify, Meaning, Print, ValidTree, UsesAnd;
  }

  /** The class that the configured action gives a text that names no licence. */
  predicate ByAction(sets: PolicySets, c: Class) {
    && (sets.unknownAction == "warn" ==> c == Unknown)
    && (sets.unknownAction == "block" ==> c == Blocked)
    && (sets.unknownAction == "allow" ==> c == Allowed)
  }

  /** The action decides, whatever the lists hold, for a text that does not parse... */
  lemma UnparsedByAction(sets: PolicySets, raw: string)
    requires IsUnknown(Parse(raw))
    ensures ByAction(sets, Classify(sets, raw))
  {
    hide Parse;
  }

  /** ... as the expressions do not that mix AND with OR, however they are parenthesised... */
  lemma MixedByAction(sets: PolicySets, e: License)
    requires ValidTree(e) && UsesOr(e) && UsesAnd(e)
    ensures ByAction(sets, Classify(sets, Print(e)))
  {
    FlatteningKeepsMeaning(sets, e);
    hide Classify, Print, ValidTree, UsesOr, UsesAnd;
  }

  /** ... and for an empty text and the words that stand for no licence, in any case of letters. */
  lemma NoLicenseByAction(sets: PolicySets, w: string)
    requires || w == ""
             || (&& IdText(w)
                 && (|| Upper(w) == "UNKNOWN" || Upper(w) == "NONE" || Upper(w) == "NOASSERTION"
                     || Upper(w) == "NULL" || w == "-"))
    ensures ByAction(sets, Classify(sets, w))
  {
    if w == "" {
      MissingIsUnknown();
    } else {
      assert w == "-" ==> Upper(w) == "-";
      ReservedIsUnknown(w);
    }
    UnparsedByAction(sets, w);
    hide Classify, Upper, Parse;
  }
}
