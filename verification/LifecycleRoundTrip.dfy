/** GCS to S3 to GCS: the exact set of GCS rules that survive the trip. */
module LifecycleRoundTrip {
  import opened Wrappers
  import opened CivilDate
  import opened LifecycleModel
  import opened LifecycleTranslate

  /** The one prefix, if any, is a real one. */
  predicate CanonicalPrefix(c: Condition) {
    c.matchesPrefix == [] || (|c.matchesPrefix| == 1 && c.matchesPrefix[0] != "")
  }

  const CLASSES := {"STANDARD", "NEARLINE", "COLDLINE", "ARCHIVE"}

  /** A rule with nothing the S3 document cannot carry: a Delete or SetStorageClass with only a
      non-negative age and a midnight date, a Delete of archived versions with only a version
      count, or a multipart abort after a positive number of days without prefix. */
  predicate Canonical(g: GcsRule) {
    var c := g.condition;
    && c.matchesSuffix == [] && c.matchesStorageClasses == [] && CanonicalPrefix(c)
    && if g.action == "Delete" && c.liveness == Archived then
         g.storageClass == "" && c.ageInDays == 0 && c.createdBefore == ZERO_TIME && c.numNewerVersions >= 0
       else if g.action == "Delete" || g.action == "SetStorageClass" then
         && (if g.action == "Delete" then g.storageClass == "" else g.storageClass in CLASSES)
         && c.liveness == LiveAndArchived && c.numNewerVersions == 0
         && c.ageInDays >= 0 && IsMidnight(c.createdBefore)
       else
         && g.action == "AbortIncompleteMultipartUpload" && g.storageClass == ""
         && c.liveness == LiveAndArchived && c.numNewerVersions == 0 && c.createdBefore == ZERO_TIME
         && c.ageInDays > 0 && c.matchesPrefix == []
  }

  predicate AllCanonical(rules: seq<GcsRule>) {
    forall g <- rules :: Canonical(g)
  }

  // One rule

  lemma BackDateTruncates(t: Instant)
    ensures CreatedBefore(BackDate(t)) == Some(Midnight(t.date))
  {
    ParseFormattedTimestamp(t);
  }

  lemma ClassFixedPoints(name: string)
    ensures MapStorageClass(ReverseMapStorageClass(name)) == name <==> name in CLASSES
  {
  }

  /** What comes back for one rule: at most one rule, of this shape. */
  function Returned(g: GcsRule): seq<GcsRule> {
    var c := g.condition;
    var prefix := if |c.matchesPrefix| > 0 then NonEmpty(Some(c.matchesPrefix[0])) else [];
    var age := if c.ageInDays > 0 then c.ageInDays else 0;
    if g.action == DELETE && c.liveness == Archived then
      [GcsRule(DELETE, "", NO_CONDITION.(liveness := Archived, matchesPrefix := prefix,
                                         numNewerVersions := if c.numNewerVersions > 0 then c.numNewerVersions else 0))]
    else if g.action == DELETE then
      [GcsRule(DELETE, "", NO_CONDITION.(ageInDays := age, createdBefore := Midnight(c.createdBefore.date),
                                         matchesPrefix := prefix))]
    else if g.action == SET_STORAGE_CLASS then
      [GcsRule(SET_STORAGE_CLASS, MapStorageClass(ReverseMapStorageClass(g.storageClass)),
               NO_CONDITION.(ageInDays := age, createdBefore := Midnight(c.createdBefore.date), matchesPrefix := prefix))]
    else if g.action == ABORT_UPLOAD && c.ageInDays > 0 then
      [AbortRule(c.ageInDays)]
    else
      []
  }

  lemma BackFilterPrefixes(c: Condition)
    ensures FilterError(BackFilter(c)).None?
    ensures Prefixes(BackFilter(c)) == if |c.matchesPrefix| > 0 then NonEmpty(Some(c.matchesPrefix[0])) else []
  {
  }

  lemma OneTransition(filter: Option<Filter>, t: Transition)
    requires TransitionRule(filter, t).Success?
    ensures TransitionRules(filter, [t]) == Success([TransitionRule(filter, t).value])
  {
    assert [t][1..] == [];
    ThenNothing(Success([TransitionRule(filter, t).value]));
  }

  /** An enabled rule with output in one of the four stages only. */
  lemma OneStage(x: Rules)
    ensures var none := Success([]);
            && Then(x, Then(none, Then(none, none))) == x
            && Then(none, Then(x, Then(none, none))) == x
            && Then(none, Then(none, Then(x, none))) == x
            && Then(none, Then(none, Then(none, x))) == x
  {
    ThenNothing(Success([]));
    ThenNothing(x);
  }

  lemma RuleReturns(i: nat, g: GcsRule)
    ensures RuleOutput(BackRule(i, g)) == Success(Returned(g))
  {
    var c, r := g.condition, BackRule(i, g);
    BackFilterPrefixes(c);
    BackDateTruncates(c.createdBefore);
    OneStage(Success(Returned(g)));
    if g.action == DELETE {
      if c.liveness == Archived {
        assert NoncurrentRules(r) == Success(Returned(g));
      } else {
        assert ExpirationRules(r) == Success(Returned(g));
      }
    } else if g.action == SET_STORAGE_CLASS {
      OneTransition(r.filter, r.transitions[0]);
      assert TransitionRules(r.filter, r.transitions) == Success(Returned(g));
    } else {
      assert AbortRules(r) == Success(Returned(g));
    }
  }

  /** One rule survives exactly when it is canonical. */
  lemma ReturnedIffCanonical(g: GcsRule)
    ensures Returned(g) == [g] <==> Canonical(g)
  {
    ClassFixedPoints(g.storageClass);
    var c := g.condition;
    assert (if |c.matchesPrefix| > 0 then NonEmpty(Some(c.matchesPrefix[0])) else []) == c.matchesPrefix
      <==> CanonicalPrefix(c);
  }

  // Lists of rules

  function ReturnedAll(rules: seq<GcsRule>): seq<GcsRule> {
    if rules == [] then [] else Returned(rules[0]) + ReturnedAll(rules[1..])
  }

  lemma {:induction false} RoundTripReturns(i: nat, rules: seq<GcsRule>)
    ensures Translate(BackFrom(i, rules)) == Success(ReturnedAll(rules))
    decreases rules
  {
    if rules != [] {
      RuleReturns(i, rules[0]);
      RoundTripReturns(i + 1, rules[1..]);
      assert BackFrom(i, rules)[1..] == BackFrom(i + 1, rules[1..]);
    }
  }

  lemma {:induction false} ReturnedAllIffCanonical(rules: seq<GcsRule>)
    ensures |ReturnedAll(rules)| <= |rules|
    ensures ReturnedAll(rules) == rules <==> AllCanonical(rules)
  {
    if rules != [] {
      var g, rest := rules[0], rules[1..];
      assert rules == [g] + rest;
      ReturnedIffCanonical(g);
      ReturnedAllIffCanonical(rest);
      var all := ReturnedAll(rules);
      if all == rules {
        assert |Returned(g)| == 1;
        assert all[..1] == Returned(g) && all[1..] == ReturnedAll(rest);
      }
      assert AllCanonical(rules) <==> Canonical(g) && AllCanonical(rest) by {
        assert forall h :: h in rules <==> h == g || h in rest;
      }
    }
  }

  /** GCS to S3 to GCS never fails, and is the identity exactly on lists of canonical rules. */
  lemma RoundTripIffCanonical(rules: seq<GcsRule>)
    ensures Translate(Back(rules)).Success?
    ensures Translate(Back(rules)) == Success(rules) <==> AllCanonical(rules)
  {
    RoundTripReturns(0, rules);
    ReturnedAllIffCanonical(rules);
  }

  // The rules of a list that comes back

  lemma {:induction false} DecimalNumber(n: nat)
    ensures AllDigits(Decimal(n)) && Number(Decimal(n)) == n
    ensures Decimal(n) == "0" || (Decimal(n) != "" && Decimal(n)[0] != '0')
  {
    if n < 10 {
      DigitValue(n);
      assert Decimal(n)[..0] == "";
      assert n > 0 ==> Digit(n) != '0';
    } else {
      DecimalNumber(n / 10);
      DigitValue(n % 10);
      assert Decimal(n)[..|Decimal(n)| - 1] == Decimal(n / 10);
    }
  }

  lemma {:induction false} BackAt(i: nat, rules: seq<GcsRule>, k: nat)
    requires k < |rules|
    ensures |BackFrom(i, rules)| == |rules| && BackFrom(i, rules)[k] == BackRule(i + k, rules[k])
    decreases rules
  {
    BackLength(i, rules);
    if k > 0 {
      BackAt(i + 1, rules[1..], k - 1);
      assert BackFrom(i, rules)[1..] == BackFrom(i + 1, rules[1..]);
    }
  }

  lemma {:induction false} BackLength(i: nat, rules: seq<GcsRule>)
    ensures |BackFrom(i, rules)| == |rules|
    decreases rules
  {
    if rules != [] {
      BackLength(i + 1, rules[1..]);
    }
  }

  function Id(i: nat): string {
    "rule-" + Decimal(i)
  }

  lemma BackRuleId(i: nat, g: GcsRule)
    ensures BackRule(i, g).status == ENABLED && BackRule(i, g).id == Id(i)
  {
  }

  lemma IdsDiffer(i: nat, j: nat)
    requires i != j
    ensures Id(i) != Id(j)
  {
    DecimalNumber(i);
    DecimalNumber(j);
    assert Id(i)[5..] == Decimal(i) && Id(j)[5..] == Decimal(j);
  }

  lemma BackId(rules: seq<GcsRule>, k: nat)
    requires k < |rules|
    ensures |Back(rules)| == |rules| && Back(rules)[k].status == ENABLED && Back(rules)[k].id == Id(k)
  {
    BackAt(0, rules, k);
    BackRuleId(k, rules[k]);
  }

  /** Each GCS rule becomes one enabled S3 rule, and no two of them share an ID. */
  lemma BackRulesDistinct(rules: seq<GcsRule>, i: nat, j: nat)
    requires i < j < |rules|
    ensures |Back(rules)| == |rules|
    ensures Back(rules)[i].status == ENABLED && Back(rules)[i].id != Back(rules)[j].id
  {
    BackId(rules, i);
    BackId(rules, j);
    IdsDiffer(i, j);
  }

  /** A positive number of days is carried, and nothing else. */
  predicate CarriesDays(days: Option<int>, n: int) {
    if n > 0 then days == Some(n) else days.None?
  }

  /** An instant is carried as a timestamp, the zero time as nothing. */
  predicate CarriesDate(date: Option<string>, t: Instant) {
    if t == Instant(Date(1, 1, 1), 0, 0, 0, 0) then date.None? else date == Some(FormatTimestamp(t))
  }

  predicate CarriesClass(s3Class: string, gcsClass: string) {
    match gcsClass
    case "NEARLINE" => s3Class == "STANDARD_IA"
    case "COLDLINE" => s3Class == "GLACIER"
    case "ARCHIVE" => s3Class == "DEEP_ARCHIVE"
    case _ => s3Class == gcsClass
  }

  /** What a client that asks for the configuration is told about each GCS rule, in full: its place as
      ID, its first prefix as filter, and its action with the day count, date and class. */
  lemma BackTells(rules: seq<GcsRule>, k: nat)
    requires k < |rules|
    ensures |Back(rules)| == |rules|
    ensures Tells(Back(rules)[k], k, rules[k])
  {
    BackId(rules, k);
    BackAt(0, rules, k);
    RuleTells(k, rules[k]);
  }

  ghost predicate Tells(r: Rule, k: nat, g: GcsRule) {
    var c := g.condition;
    && r.id == "rule-" + Decimal(k) && r.status == "Enabled" && r.priority == 0 && r.noncurrentTransitions == []
    && r.filter == (if c.matchesPrefix == [] then None else Some(Filter(Some(c.matchesPrefix[0]), None, None, None, None)))
    && (r.expiration.Some? <==> g.action == "Delete" && c.liveness != Archived)
    && (r.expiration.Some? ==>
          && CarriesDays(r.expiration.value.days, c.ageInDays)
          && CarriesDate(r.expiration.value.date, c.createdBefore)
          && r.expiration.value.expiredObjectDeleteMarker.None?)
    && (r.noncurrentExpiration.Some? <==> g.action == "Delete" && c.liveness == Archived)
    && (r.noncurrentExpiration.Some? ==> CarriesDays(r.noncurrentExpiration.value.noncurrentDays, c.numNewerVersions))
    && |r.transitions| == (if g.action == "SetStorageClass" then 1 else 0)
    && (forall t <- r.transitions ::
          && CarriesDays(t.days, c.ageInDays) && CarriesDate(t.date, c.createdBefore)
          && CarriesClass(t.storageClass, g.storageClass))
    && (r.abortUpload.Some? <==> g.action == "AbortIncompleteMultipartUpload" && c.ageInDays > 0)
    && (r.abortUpload.Some? ==> r.abortUpload.value.daysAfterInitiation == Some(c.ageInDays))
  }

  lemma ClassCarried(gcsClass: string)
    ensures CarriesClass(ReverseMapStorageClass(gcsClass), gcsClass)
  {
  }

  lemma RuleTells(k: nat, g: GcsRule)
    ensures Tells(BackRule(k, g), k, g)
  {
    ClassCarried(g.storageClass);
  }

  // Configurations that come from S3

  /** An enabled rule emits canonical rules only. */
  predicate Normal(r: Rule) {
    r.status == ENABLED ==>
      && ((r.expiration.Some? || r.transitions != [] || r.noncurrentExpiration.Some?) ==> |Prefixes(r.filter)| <= 1)
      && (r.expiration.Some? ==> r.expiration.value.days.GetOr(0) >= 0)
      && (forall t <- r.transitions :: t.days.GetOr(0) >= 0)
      && (r.noncurrentExpiration.Some? ==> r.noncurrentExpiration.value.noncurrentDays.GetOr(0) >= 0)
      && (r.abortUpload.Some? ==> r.abortUpload.value.daysAfterInitiation.GetOr(1) > 0)
  }

  lemma AllCanonicalConcat(a: seq<GcsRule>, b: seq<GcsRule>)
    ensures AllCanonical(a + b) <==> AllCanonical(a) && AllCanonical(b)
  {
    assert forall g :: g in a + b <==> g in a || g in b;
  }

  lemma MappedClass(name: string)
    ensures MapStorageClass(name) in CLASSES
  {
  }

  lemma MidnightCreatedBefore(date: Option<string>)
    requires CreatedBefore(date).Some?
    ensures IsMidnight(CreatedBefore(date).value)
  {
  }

  lemma SingletonCanonical(g: GcsRule)
    ensures AllCanonical([g]) <==> Canonical(g)
  {
    assert g in [g];
  }

  lemma OnePrefixCanonical(filter: Option<Filter>)
    ensures CanonicalPrefix(NO_CONDITION.(matchesPrefix := Prefixes(filter))) <==> |Prefixes(filter)| <= 1
  {
  }

  lemma {:induction false} TransitionsNormal(filter: Option<Filter>, ts: seq<Transition>)
    requires TransitionRules(filter, ts).Success?
    ensures AllCanonical(TransitionRules(filter, ts).value)
            <==> (ts != [] ==> |Prefixes(filter)| <= 1) && forall t <- ts :: t.days.GetOr(0) >= 0
  {
    if ts != [] {
      var t, rest := ts[0], ts[1..];
      TransitionsNormal(filter, rest);
      OnePrefixCanonical(filter);
      MappedClass(t.storageClass);
      MidnightCreatedBefore(t.date);
      var g := TransitionRule(filter, t).value;
      SingletonCanonical(g);
      AllCanonicalConcat([g], TransitionRules(filter, rest).value);
      assert forall u :: u in ts <==> u == t || u in rest;
    }
  }

  lemma ExpirationNormal(r: Rule)
    requires ExpirationRules(r).Success?
    ensures AllCanonical(ExpirationRules(r).value)
            <==> (r.expiration.Some? ==> |Prefixes(r.filter)| <= 1 && r.expiration.value.days.GetOr(0) >= 0)
  {
    if r.expiration.Some? {
      OnePrefixCanonical(r.filter);
      MidnightCreatedBefore(r.expiration.value.date);
      SingletonCanonical(ExpirationRules(r).value[0]);
    }
  }

  lemma NoncurrentAndAbortNormal(r: Rule)
    ensures AllCanonical(NoncurrentRules(r).value)
            <==> (r.noncurrentExpiration.Some? ==>
                    |Prefixes(r.filter)| <= 1 && r.noncurrentExpiration.value.noncurrentDays.GetOr(0) >= 0)
    ensures AllCanonical(AbortRules(r).value)
            <==> (r.abortUpload.Some? ==> r.abortUpload.value.daysAfterInitiation.GetOr(1) > 0)
  {
    OnePrefixCanonical(r.filter);
    if r.noncurrentExpiration.Some? {
      SingletonCanonical(NoncurrentRules(r).value[0]);
    }
    if r.abortUpload.Some? && r.abortUpload.value.daysAfterInitiation.Some? {
      SingletonCanonical(AbortRules(r).value[0]);
    }
  }

  lemma RuleNormal(r: Rule)
    requires RuleOutput(r).Success?
    ensures AllCanonical(RuleOutput(r).value) <==> Normal(r)
  {
    if r.status == ENABLED {
      var e, t, n, a := ExpirationRules(r).value, TransitionRules(r.filter, r.transitions).value,
                        NoncurrentRules(r).value, AbortRules(r).value;
      AllCanonicalConcat(e, t + (n + a));
      AllCanonicalConcat(t, n + a);
      AllCanonicalConcat(n, a);
      ExpirationNormal(r);
      TransitionsNormal(r.filter, r.transitions);
      NoncurrentAndAbortNormal(r);
    }
  }

  predicate AllNormal(rules: seq<Rule>) {
    forall r <- rules :: Normal(r)
  }

  lemma AllNormalSplit(rules: seq<Rule>)
    requires rules != []
    ensures AllNormal(rules) <==> Normal(rules[0]) && AllNormal(rules[1..])
  {
  }

  lemma {:induction false} OutputCanonicalIffNormal(rules: seq<Rule>)
    requires Translate(rules).Success?
    ensures AllCanonical(Translate(rules).value) <==> AllNormal(rules)
  {
    if rules != [] {
      var r, rest := rules[0], rules[1..];
      RuleNormal(r);
      OutputCanonicalIffNormal(rest);
      AllCanonicalConcat(RuleOutput(r).value, Translate(rest).value);
      AllNormalSplit(rules);
    }
  }

  /** S3 to GCS to S3 to GCS: what was translated once comes back rule for rule exactly when no
      enabled rule combines two prefixes, has a negative day count, or aborts uploads after no
      positive number of days. */
  lemma {:induction false} NormalisationIffNormal(rules: seq<Rule>)
    requires Translate(rules).Success?
    ensures Translate(Back(Translate(rules).value)) == Translate(rules) <==> AllNormal(rules)
  {
    OutputCanonicalIffNormal(rules);
    RoundTripIffCanonical(Translate(rules).value);
  }
}
