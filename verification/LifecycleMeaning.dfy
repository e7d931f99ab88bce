/** What lifecycle rules do to objects, on both sides, and when the translation preserves it.
    Only actions counted in days on live objects are given a meaning: an S3 `Date` and a GCS
    `createdBefore` are different conditions, and noncurrent-version and abort rules are translated
    by analogy only. */
module LifecycleMeaning {
  import opened Wrappers
  import opened CivilDate
  import opened LifecycleModel
  import opened LifecycleTranslate

  /** A live object; `age` is in whole days. */
  datatype LiveObject = LiveObject(
    key: string,
    size: nat,
    tags: map<string, string>,
    age: nat,
    created: Instant,
    storageClass: string)

  /** What a lifecycle rule can do to a live object. */
  datatype Effect = Expire | MoveTo(storageClass: string)

  // S3: every part of a filter must hold

  predicate PrefixHolds(prefix: Option<string>, o: LiveObject) {
    prefix.Some? ==> prefix.value <= o.key
  }

  predicate TagHolds(t: Tag, o: LiveObject) {
    t.key in o.tags && o.tags[t.key] == t.value
  }

  predicate SizeHolds(greater: Option<int>, less: Option<int>, o: LiveObject) {
    (greater.Some? ==> o.size > greater.value) && (less.Some? ==> o.size < less.value)
  }

  predicate FilterMatches(filter: Option<Filter>, o: LiveObject) {
    filter.Some? ==>
      var f := filter.value;
      && PrefixHolds(f.prefix, o)
      && (f.tag.Some? ==> TagHolds(f.tag.value, o))
      && SizeHolds(f.sizeGreaterThan, f.sizeLessThan, o)
      && (f.and.Some? ==>
            && PrefixHolds(f.and.value.prefix, o)
            && (forall t <- f.and.value.tags :: TagHolds(t, o))
            && SizeHolds(f.and.value.sizeGreaterThan, f.and.value.sizeLessThan, o))
  }

  predicate DaysReached(days: Option<int>, o: LiveObject) {
    days.Some? && o.age >= days.value
  }

  /** The GCS class that stands in for each S3 class a lifecycle rule can name. */
  const GCS_CLASS := map[
    "STANDARD_IA" := "NEARLINE", "ONEZONE_IA" := "NEARLINE",
    "GLACIER_IR" := "COLDLINE", "GLACIER" := "COLDLINE",
    "DEEP_ARCHIVE" := "ARCHIVE",
    "INTELLIGENT_TIERING" := "STANDARD", "STANDARD" := "STANDARD"]

  predicate StandsFor(gcsClass: string, s3Class: string) {
    gcsClass == if s3Class in GCS_CLASS then GCS_CLASS[s3Class] else "STANDARD"
  }

  lemma ClassStandsFor(s3Class: string)
    ensures StandsFor(MapStorageClass(s3Class), s3Class)
  {
  }

  /** S3 rule `r` has effect `eff` on `o`, for actions counted in days. */
  predicate S3Causes(r: Rule, eff: Effect, o: LiveObject) {
    && r.status == "Enabled"
    && FilterMatches(r.filter, o)
    && match eff
       case Expire => r.expiration.Some? && DaysReached(r.expiration.value.days, o)
       case MoveTo(c) => exists t <- r.transitions :: StandsFor(c, t.storageClass) && DaysReached(t.days, o)
  }

  // GCS: any of the prefixes may hold, unset conditions hold of everything

  predicate Matches(c: Condition, o: LiveObject) {
    && (c.ageInDays > 0 ==> o.age >= c.ageInDays)
    && (c.createdBefore == ZERO_TIME || Earlier(o.created, c.createdBefore))
    && c.liveness != Archived
    && c.numNewerVersions <= 0
    && (c.matchesPrefix == [] || exists p <- c.matchesPrefix :: p <= o.key)
    && (c.matchesSuffix == [] || exists p <- c.matchesSuffix :: EndsWith(o.key, p))
    && (c.matchesStorageClasses == [] || o.storageClass in c.matchesStorageClasses)
  }

  predicate EndsWith(s: string, suffix: string) {
    |suffix| <= |s| && s[|s| - |suffix|..] == suffix
  }

  predicate GcsCauses(g: GcsRule, eff: Effect, o: LiveObject) {
    && Matches(g.condition, o)
    && match eff
       case Expire => g.action == "Delete"
       case MoveTo(c) => g.action == "SetStorageClass" && g.storageClass == c
  }

  predicate AnyS3(rules: seq<Rule>, eff: Effect, o: LiveObject) {
    exists r <- rules :: S3Causes(r, eff, o)
  }

  predicate AnyGcs(rules: seq<GcsRule>, eff: Effect, o: LiveObject) {
    exists g <- rules :: GcsCauses(g, eff, o)
  }

  // One action

  /** "Any of" and "all of" the emitted prefixes are the same thing. */
  predicate OnePrefix(filter: Option<Filter>) {
    forall p <- Prefixes(filter), q <- Prefixes(filter) :: p == q
  }

  predicate AllPrefixes(filter: Option<Filter>, o: LiveObject) {
    forall p <- Prefixes(filter) :: p <= o.key
  }

  /** A filter the translation accepts is nothing but its prefixes: this is what the rejection of
      size and tag filters buys. */
  lemma AcceptedFilterIsPrefixes(filter: Option<Filter>, o: LiveObject)
    requires FilterError(filter).None?
    ensures FilterMatches(filter, o) <==> AllPrefixes(filter, o)
  {
    if filter.Some? {
      var f := filter.value;
      PrefixIsMember(f.prefix, o);
      PrefixIsMember(AndPrefix(f), o);
      assert AllPrefixes(filter, o) <==>
        (forall p <- NonEmpty(f.prefix) :: p <= o.key) && (forall p <- NonEmpty(AndPrefix(f)) :: p <= o.key) by {
        assert forall p :: p in Prefixes(filter) <==> p in NonEmpty(f.prefix) || p in NonEmpty(AndPrefix(f));
      }
    }
  }

  lemma PrefixIsMember(prefix: Option<string>, o: LiveObject)
    ensures PrefixHolds(prefix, o) <==> forall p <- NonEmpty(prefix) :: p <= o.key
  {
    if prefix.Some? && prefix.value != "" {
      assert prefix.value in NonEmpty(prefix);
    }
  }

  /** The condition emitted for an action with a day count and no date. */
  function DayCondition(filter: Option<Filter>, days: Option<int>): Condition {
    NO_CONDITION.(ageInDays := days.GetOr(0), matchesPrefix := Prefixes(filter))
  }

  lemma PrefixesAgree(filter: Option<Filter>, o: LiveObject)
    requires OnePrefix(filter)
    ensures AllPrefixes(filter, o) <==> Prefixes(filter) == [] || exists p <- Prefixes(filter) :: p <= o.key
  {
    if Prefixes(filter) != [] {
      assert Prefixes(filter)[0] in Prefixes(filter);
    }
  }

  /** An action by days keeps its meaning on every live object exactly when it does have a day
      count and its filter names at most one prefix. Otherwise it differs on some object: an
      action without days becomes an unconditional one, two prefixes become alternatives. */
  lemma ActionMeaningExact(filter: Option<Filter>, days: Option<int>)
    requires FilterError(filter).None?
    ensures (forall o: LiveObject :: FilterMatches(filter, o) && DaysReached(days, o) <==> Matches(DayCondition(filter, days), o))
            <==> days.Some? && OnePrefix(filter)
  {
    if days.Some? && OnePrefix(filter) {
      forall o: LiveObject
        ensures FilterMatches(filter, o) && DaysReached(days, o) <==> Matches(DayCondition(filter, days), o)
      {
        AcceptedFilterIsPrefixes(filter, o);
        PrefixesAgree(filter, o);
      }
    } else {
      var o := Discrepancy(filter, days);
    }
  }

  lemma Discrepancy(filter: Option<Filter>, days: Option<int>) returns (o: LiveObject)
    requires FilterError(filter).None? && !(days.Some? && OnePrefix(filter))
    ensures Matches(DayCondition(filter, days), o) && !(FilterMatches(filter, o) && DaysReached(days, o))
  {
    var age := if days.Some? && days.value > 0 then days.value else 0;
    if days.None? {
      var key := if Prefixes(filter) == [] then "" else Prefixes(filter)[0];
      o := LiveObject(key, 0, map[], age, ZERO_TIME, "STANDARD");
      assert Prefixes(filter) != [] ==> key in Prefixes(filter);
    } else {
      var p, q :| p in Prefixes(filter) && q in Prefixes(filter) && p != q;
      var key := if p <= q then p else q;
      o := LiveObject(key, 0, map[], age, ZERO_TIME, "STANDARD");
      AcceptedFilterIsPrefixes(filter, o);
      assert !(p <= key && q <= key);
    }
  }

  // Whole configurations

  /** An enabled rule acts by day counts alone and names at most one prefix. */
  predicate CountsDays(r: Rule) {
    r.status == ENABLED ==>
      && (r.expiration.Some? ==> r.expiration.value.days.Some? && r.expiration.value.date.None? && OnePrefix(r.filter))
      && (forall t <- r.transitions :: t.days.Some? && t.date.None? && OnePrefix(r.filter))
  }

  lemma AnyGcsConcat(a: seq<GcsRule>, b: seq<GcsRule>, eff: Effect, o: LiveObject)
    ensures AnyGcs(a + b, eff, o) <==> AnyGcs(a, eff, o) || AnyGcs(b, eff, o)
  {
    assert forall g :: g in a + b <==> g in a || g in b;
  }

  /** A single day-counted action and the rule emitted for it. */
  lemma ActionPreserved(filter: Option<Filter>, days: Option<int>, o: LiveObject)
    requires FilterError(filter).None? && days.Some? && OnePrefix(filter)
    ensures FilterMatches(filter, o) && DaysReached(days, o) <==> Matches(DayCondition(filter, days), o)
  {
    ActionMeaningExact(filter, days);
  }

  lemma {:induction false} TransitionsPreserved(filter: Option<Filter>, ts: seq<Transition>, eff: Effect, o: LiveObject)
    requires FilterError(filter).None?
    requires forall t <- ts :: t.days.Some? && t.date.None? && OnePrefix(filter)
    ensures TransitionRules(filter, ts).Success?
    ensures AnyGcs(TransitionRules(filter, ts).value, eff, o) <==>
            eff.MoveTo? && FilterMatches(filter, o)
            && exists t <- ts :: StandsFor(eff.storageClass, t.storageClass) && DaysReached(t.days, o)
  {
    if ts != [] {
      var t, rest := ts[0], ts[1..];
      ClassStandsFor(t.storageClass);
      assert ts == [t] + rest && t in ts && forall u <- rest :: u in ts;
      TransitionsPreserved(filter, rest, eff, o);
      ActionPreserved(filter, t.days, o);
      var g := TransitionRule(filter, t).value;
      assert g == GcsRule(SET_STORAGE_CLASS, MapStorageClass(t.storageClass), DayCondition(filter, t.days));
      assert AnyGcs([g], eff, o) <==> GcsCauses(g, eff, o) by {
        assert g in [g];
      }
      AnyGcsConcat([g], TransitionRules(filter, rest).value, eff, o);
      assert forall u :: u in ts <==> u == t || u in rest;
    }
  }

  lemma ExpirationPreserved(r: Rule, eff: Effect, o: LiveObject)
    requires FilterError(r.filter).None? && r.status == ENABLED && CountsDays(r)
    ensures ExpirationRules(r).Success?
    ensures AnyGcs(ExpirationRules(r).value, eff, o) <==>
            eff.Expire? && r.expiration.Some? && FilterMatches(r.filter, o) && DaysReached(r.expiration.value.days, o)
  {
    if r.expiration.Some? {
      ActionPreserved(r.filter, r.expiration.value.days, o);
      var g := ExpirationRules(r).value[0];
      assert g == GcsRule(DELETE, "", DayCondition(r.filter, r.expiration.value.days));
      assert ExpirationRules(r).value == [g] && g in [g];
    }
  }

  /** Noncurrent-version and abort rules never touch a live object. */
  lemma OtherRulesInert(r: Rule, eff: Effect, o: LiveObject)
    ensures !AnyGcs(NoncurrentRules(r).value, eff, o)
    ensures !AnyGcs(AbortRules(r).value, eff, o)
  {
  }

  lemma RulePreserved(r: Rule, eff: Effect, o: LiveObject)
    requires RuleOutput(r).Success? && CountsDays(r)
    ensures S3Causes(r, eff, o) <==> AnyGcs(RuleOutput(r).value, eff, o)
  {
    if r.status == ENABLED {
      ExpirationPreserved(r, eff, o);
      TransitionsPreserved(r.filter, r.transitions, eff, o);
      OtherRulesInert(r, eff, o);
      var e, t, n, a := ExpirationRules(r).value, TransitionRules(r.filter, r.transitions).value,
                        NoncurrentRules(r).value, AbortRules(r).value;
      AnyGcsConcat(e, t + (n + a), eff, o);
      AnyGcsConcat(t, n + a, eff, o);
      AnyGcsConcat(n, a, eff, o);
    }
  }

  /** Meaning preservation: for every configuration that translates and acts by day counts, every
      live object, whatever its key, size, tags and age, expires (or moves to a given storage
      class) under the S3 rules exactly when it does under the emitted GCS rules. */
  lemma {:induction false} MeaningPreserved(rules: seq<Rule>, eff: Effect, o: LiveObject)
    requires Translate(rules).Success?
    requires forall r <- rules :: CountsDays(r)
    ensures AnyS3(rules, eff, o) <==> AnyGcs(Translate(rules).value, eff, o)
  {
    if rules != [] {
      var r, rest := rules[0], rules[1..];
      assert rules == [r] + rest && r in rules && forall s <- rest :: s in rules;
      RulePreserved(r, eff, o);
      MeaningPreserved(rest, eff, o);
      AnyGcsConcat(RuleOutput(r).value, Translate(rest).value, eff, o);
      assert forall s :: s in rules <==> s == r || s in rest;
    }
  }

  /** The day count cannot be dropped from the conditions above: an expiration with neither days nor
      date, such as one that only asks for expired delete markers to be removed, expires no object
      in S3, and in GCS every live object its filter matches, whatever its age. */
  lemma MarkerOnlyExpirationDeletesAll(filter: Option<Filter>, marker: Option<bool>, o: LiveObject)
    requires FilterError(filter).None? && FilterMatches(filter, o)
    ensures var r := Rule("", 0, filter, ENABLED, [], Some(Expiration(None, None, marker)), [], None, None);
            && !AnyS3([r], Expire, o)
            && Translate([r]).Success?
            && AnyGcs(Translate([r]).value, Expire, o)
  {
    var r := Rule("", 0, filter, ENABLED, [], Some(Expiration(None, None, marker)), [], None, None);
    var g := GcsRule(DELETE, "", DayCondition(filter, None));
    OnlyExpiration(r, g);
    AcceptedFilterIsPrefixes(filter, o);
    assert Prefixes(filter) != [] ==> Prefixes(filter)[0] in Prefixes(filter);
    assert g in [g] && GcsCauses(g, Expire, o);
  }

  lemma OnlyExpiration(r: Rule, g: GcsRule)
    requires r.status == ENABLED && FilterError(r.filter).None?
    requires r.transitions == [] && r.noncurrentExpiration.None? && r.abortUpload.None?
    requires ExpirationRules(r) == Success([g])
    ensures Translate([r]) == Success([g])
  {
    ThenNothing(Success([]));
    ThenNothing(Success([g]));
    assert [r][1..] == [];
  }
}
