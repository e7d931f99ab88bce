/** The three translators of pkg/translate/gcs_lifecycle.go. Each loop is a method, proved against
    a function on the rule list; what the translations mean is proved about the functions. */
module LifecycleTranslate {
  import opened Wrappers
  import opened CivilDate
  import opened LifecycleModel

  // Filters

  /** The first unsupported part of a filter, in the order both translators test. */
  function FilterError(filter: Option<Filter>): Option<LifecycleError> {
    match filter
    case None => None
    case Some(f) =>
      if f.sizeGreaterThan.Some? || f.sizeLessThan.Some? then Some(SizeFilter)
      else if f.tag.Some? then Some(TagFilter)
      else match f.and
           case None => None
           case Some(a) =>
             if a.sizeGreaterThan.Some? || a.sizeLessThan.Some? then Some(SizeFilterInAnd)
             else if |a.tags| > 0 then Some(TagFilterInAnd)
             else None
  }

  function NonEmpty(prefix: Option<string>): seq<string> {
    match prefix
    case Some(p) => if p != "" then [p] else []
    case None => []
  }

  function AndPrefix(filter: Filter): Option<string> {
    match filter.and
    case Some(a) => a.prefix
    case None => None
  }

  /** The prefixes a filter contributes to `MatchesPrefix`. */
  function Prefixes(filter: Option<Filter>): seq<string> {
    match filter
    case None => []
    case Some(f) => NonEmpty(f.prefix) + NonEmpty(AndPrefix(f))
  }

  // applySDKFilter
  method ApplySdkFilter(filter: Option<Filter>, c: ConditionCell<Condition>)
    requires c.value.matchesPrefix == []
    modifies c
    ensures c.value == old(c.value).(matchesPrefix := Prefixes(filter))
  {
    if filter.None? {
      return;
    }
    var f := filter.value;
    if f.prefix.Some? && f.prefix.value != "" {
      c.value := c.value.(matchesPrefix := [f.prefix.value]);
    }
    if f.and.Some? && f.and.value.prefix.Some? && f.and.value.prefix.value != "" {
      c.value := c.value.(matchesPrefix := c.value.matchesPrefix + [f.and.value.prefix.value]);
    }
  }

  // applyRuleFilter; a rejected filter may leave a prefix behind in the condition
  method ApplyRuleFilter(filter: Option<Filter>, c: ConditionCell<JsonCondition>) returns (err: Option<LifecycleError>)
    requires c.value.matchesPrefix == []
    modifies c
    ensures err == FilterError(filter)
    ensures err.None? ==> c.value == old(c.value).(matchesPrefix := Prefixes(filter))
    ensures err.Some? ==>
              c.value == old(c.value)
              || c.value == old(c.value).(matchesPrefix := NonEmpty(filter.value.prefix))
  {
    if filter.None? {
      return None;
    }
    var f := filter.value;
    if f.sizeGreaterThan.Some? || f.sizeLessThan.Some? {
      return Some(SizeFilter);
    }
    if f.tag.Some? {
      return Some(TagFilter);
    }
    if f.prefix.Some? && f.prefix.value != "" {
      c.value := c.value.(matchesPrefix := [f.prefix.value]);
    }
    if f.and.Some? {
      var a := f.and.value;
      if a.sizeGreaterThan.Some? || a.sizeLessThan.Some? {
        return Some(SizeFilterInAnd);
      }
      if |a.tags| > 0 {
        return Some(TagFilterInAnd);
      }
      if a.prefix.Some? && a.prefix.value != "" {
        c.value := c.value.(matchesPrefix := c.value.matchesPrefix + [a.prefix.value]);
      }
    }
    return None;
  }

  // Storage classes

  function MapStorageClass(s3Class: string): string {
    if s3Class == "STANDARD_IA" || s3Class == "ONEZONE_IA" then "NEARLINE"
    else if s3Class == "INTELLIGENT_TIERING" then "STANDARD"
    else if s3Class == "GLACIER" || s3Class == "GLACIER_IR" then "COLDLINE"
    else if s3Class == "DEEP_ARCHIVE" then "ARCHIVE"
    else "STANDARD"
  }

  function ReverseMapStorageClass(gcsClass: string): string {
    if gcsClass == "NEARLINE" then "STANDARD_IA"
    else if gcsClass == "COLDLINE" then "GLACIER"
    else if gcsClass == "ARCHIVE" then "DEEP_ARCHIVE"
    else if gcsClass == "STANDARD" then "STANDARD"
    else gcsClass
  }

  // S3 to the SDK structs

  /** `CreatedBefore` for an optional S3 date; None when the date does not parse. */
  function CreatedBefore(date: Option<string>): Option<Instant> {
    match date
    case None => Some(ZERO_TIME)
    case Some(s) =>
      match ParseS3Date(s)
      case Some(d) => Some(Midnight(d))
      case None => None
  }

  function ExpirationRule(filter: Option<Filter>, e: Expiration): Result<GcsRule, LifecycleError> {
    match CreatedBefore(e.date)
    case None => Failure(InvalidExpirationDate(e.date.value))
    case Some(t) =>
      Success(GcsRule(DELETE, "", NO_CONDITION.(ageInDays := e.days.GetOr(0), createdBefore := t,
                                                matchesPrefix := Prefixes(filter))))
  }

  function TransitionRule(filter: Option<Filter>, t: Transition): Result<GcsRule, LifecycleError> {
    match CreatedBefore(t.date)
    case None => Failure(InvalidTransitionDate(t.date.value))
    case Some(before) =>
      Success(GcsRule(SET_STORAGE_CLASS, MapStorageClass(t.storageClass),
                      NO_CONDITION.(ageInDays := t.days.GetOr(0), createdBefore := before,
                                    matchesPrefix := Prefixes(filter))))
  }

  function NoncurrentRule(filter: Option<Filter>, n: NoncurrentExpiration): GcsRule {
    GcsRule(DELETE, "", NO_CONDITION.(liveness := Archived, numNewerVersions := n.noncurrentDays.GetOr(0),
                                      matchesPrefix := Prefixes(filter)))
  }

  function AbortRule(days: int): GcsRule {
    GcsRule(ABORT_UPLOAD, "", NO_CONDITION.(ageInDays := days))
  }

  type Rules = Result<seq<GcsRule>, LifecycleError>

  /** Two stages of output in order; the first failure wins. */
  function Then(a: Rules, b: Rules): Rules {
    if a.Failure? then a else if b.Failure? then b else Success(a.value + b.value)
  }

  function ExpirationRules(r: Rule): Rules {
    match r.expiration
    case None => Success([])
    case Some(e) => var g :- ExpirationRule(r.filter, e); Success([g])
  }

  function TransitionRules(filter: Option<Filter>, ts: seq<Transition>): Rules {
    if ts == [] then Success([])
    else
      var g :- TransitionRule(filter, ts[0]);
      Then(Success([g]), TransitionRules(filter, ts[1..]))
  }

  function NoncurrentRules(r: Rule): Rules {
    match r.noncurrentExpiration
    case None => Success([])
    case Some(n) => Success([NoncurrentRule(r.filter, n)])
  }

  function AbortRules(r: Rule): Rules {
    match r.abortUpload
    case Some(AbortUpload(Some(days))) => Success([AbortRule(days)])
    case _ => Success([])
  }

  /** What one S3 rule contributes. */
  function RuleOutput(r: Rule): Rules {
    if r.status != ENABLED then Success([])
    else
      match FilterError(r.filter)
      case Some(e) => Failure(e)
      case None =>
        Then(ExpirationRules(r),
             Then(TransitionRules(r.filter, r.transitions), Then(NoncurrentRules(r), AbortRules(r))))
  }

  function Translate(rules: seq<Rule>): Rules {
    if rules == [] then Success([])
    else
      var out :- RuleOutput(rules[0]);
      Then(Success(out), Translate(rules[1..]))
  }

  lemma ThenAssociative(a: Rules, b: Rules, c: Rules)
    ensures Then(Then(a, b), c) == Then(a, Then(b, c))
  {
    if a.Success? && b.Success? && c.Success? {
      assert a.value + b.value + c.value == a.value + (b.value + c.value);
    }
  }

  // The rule being built, after the filter and the two optional fields
  method FillActionCondition(filter: Option<Filter>, days: Option<int>, date: Option<string>)
    returns (c: Option<Condition>)
    ensures c == match CreatedBefore(date)
                 case None => None
                 case Some(t) => Some(NO_CONDITION.(ageInDays := days.GetOr(0), createdBefore := t,
                                                    matchesPrefix := Prefixes(filter)))
  {
    var cell := new ConditionCell(NO_CONDITION);
    ApplySdkFilter(filter, cell);
    if days.Some? {
      cell.value := cell.value.(ageInDays := days.value);
    }
    if date.Some? {
      var parsed := ParseS3Date(date.value);
      if parsed.None? {
        return None;
      }
      cell.value := cell.value.(createdBefore := Midnight(parsed.value));
    }
    return Some(cell.value);
  }

  /** `TranslateS3ToGCSLifecycle`. */
  method TranslateS3ToGcsLifecycle(s3Rules: seq<Rule>) returns (r: Rules)
    ensures r == Translate(s3Rules)
  {
    var rules: seq<GcsRule> := [];
    assert s3Rules[0..] == s3Rules;
    ThenNothing(Translate(s3Rules));
    for i := 0 to |s3Rules|
      invariant Translate(s3Rules) == Then(Success(rules), Translate(s3Rules[i..]))
    {
      var s3Rule := s3Rules[i];
      assert s3Rules[i..][1..] == s3Rules[i + 1..];
      ghost var before := rules;
      ThenNothing(Success(before));
      ghost var rest := Translate(s3Rules[i + 1..]);
      if s3Rule.status != ENABLED {
        ThenNothing(rest);
        continue;
      }
      var err := FilterError(s3Rule.filter);
      if err.Some? {
        return Failure(err.value);
      }
      if s3Rule.expiration.Some? {
        var e := s3Rule.expiration.value;
        var c := FillActionCondition(s3Rule.filter, e.days, e.date);
        if c.None? {
          return Failure(InvalidExpirationDate(e.date.value));
        }
        rules := rules + [GcsRule(DELETE, "", c.value)];
      }
      assert Success(rules) == Then(Success(before), ExpirationRules(s3Rule));
      ghost var afterExpiration := rules;
      for j := 0 to |s3Rule.transitions|
        invariant Then(Success(afterExpiration), TransitionRules(s3Rule.filter, s3Rule.transitions))
               == Then(Success(rules), TransitionRules(s3Rule.filter, s3Rule.transitions[j..]))
      {
        var t := s3Rule.transitions[j];
        assert s3Rule.transitions[j..][1..] == s3Rule.transitions[j + 1..];
        var c := FillActionCondition(s3Rule.filter, t.days, t.date);
        if c.None? {
          return Failure(InvalidTransitionDate(t.date.value));
        }
        var g := GcsRule(SET_STORAGE_CLASS, MapStorageClass(t.storageClass), c.value);
        ThenAssociative(Success(rules), Success([g]), TransitionRules(s3Rule.filter, s3Rule.transitions[j + 1..]));
        rules := rules + [g];
      }
      assert s3Rule.transitions[|s3Rule.transitions|..] == [];
      ThenNothing(Success(rules));
      ghost var afterTransitions := rules;
      if s3Rule.noncurrentExpiration.Some? {
        var cell := new ConditionCell(NO_CONDITION.(liveness := Archived));
        if s3Rule.noncurrentExpiration.value.noncurrentDays.Some? {
          cell.value := cell.value.(numNewerVersions := s3Rule.noncurrentExpiration.value.noncurrentDays.value);
        }
        ApplySdkFilter(s3Rule.filter, cell);
        rules := rules + [GcsRule(DELETE, "", cell.value)];
      }
      assert Success(rules) == Then(Success(afterTransitions), NoncurrentRules(s3Rule));
      ThenNothing(Success(rules));
      ghost var afterNoncurrent := rules;
      if s3Rule.abortUpload.Some? && s3Rule.abortUpload.value.daysAfterInitiation.Some? {
        rules := rules + [AbortRule(s3Rule.abortUpload.value.daysAfterInitiation.value)];
      }
      assert Success(rules) == Then(Success(afterNoncurrent), AbortRules(s3Rule));
      FourStages(before, s3Rule, afterExpiration, afterTransitions, afterNoncurrent, rules);
      ThenAssociative(Success(before), RuleOutput(s3Rule), rest);
    }
    assert s3Rules[|s3Rules|..] == [];
    ThenNothing(Success(rules));
    return Success(rules);
  }

  lemma ThenNothing(a: Rules)
    ensures Then(Success([]), a) == a && Then(a, Success([])) == a
  {
    if a.Success? {
      assert [] + a.value == a.value == a.value + [];
    }
  }

  /** The four stages of one loop pass append exactly `RuleOutput`. */
  lemma FourStages(before: seq<GcsRule>, r: Rule, e: seq<GcsRule>, t: seq<GcsRule>, n: seq<GcsRule>, a: seq<GcsRule>)
    requires r.status == ENABLED && FilterError(r.filter).None?
    requires Success(e) == Then(Success(before), ExpirationRules(r))
    requires Success(t) == Then(Success(e), TransitionRules(r.filter, r.transitions))
    requires Success(n) == Then(Success(t), NoncurrentRules(r))
    requires Success(a) == Then(Success(n), AbortRules(r))
    ensures Success(a) == Then(Success(before), RuleOutput(r))
  {
    var transitions := TransitionRules(r.filter, r.transitions);
    ThenAssociative(Success(before), ExpirationRules(r), Then(transitions, Then(NoncurrentRules(r), AbortRules(r))));
    ThenAssociative(Success(e), transitions, Then(NoncurrentRules(r), AbortRules(r)));
    ThenAssociative(Success(t), NoncurrentRules(r), AbortRules(r));
  }

  // S3 to JSON, the older translator

  type JsonRules = Result<seq<JsonRule>, LifecycleError>

  function JsonAction(r: Rule, action: string, storageClass: string, days: Option<int>, date: Option<string>): JsonRule {
    JsonRule(action, storageClass,
             NO_JSON_CONDITION.(age := days, matchesPrefix := Prefixes(r.filter),
                                createdBefore := if date.Some? then Some(TruncateDate(date.value)) else None))
  }

  function JsonTransitions(r: Rule, ts: seq<Transition>): seq<JsonRule> {
    if ts == [] then []
    else [JsonAction(r, SET_STORAGE_CLASS, MapStorageClass(ts[0].storageClass), ts[0].days, ts[0].date)]
         + JsonTransitions(r, ts[1..])
  }

  function JsonExpirations(r: Rule): seq<JsonRule> {
    if r.expiration.None? then []
    else [JsonAction(r, DELETE, "", r.expiration.value.days, r.expiration.value.date)]
  }

  function JsonNoncurrent(r: Rule): seq<JsonRule> {
    if r.noncurrentExpiration.None? then []
    else [JsonRule(DELETE, "", NO_JSON_CONDITION.(isLive := Some(false), matchesPrefix := Prefixes(r.filter),
                                                  numNewerVersions := r.noncurrentExpiration.value.noncurrentDays))]
  }

  function JsonOutput(r: Rule): seq<JsonRule> {
    JsonExpirations(r) + JsonTransitions(r, r.transitions) + JsonNoncurrent(r)
  }

  /** The older translator looks at the filter only when it is about to emit a rule. */
  predicate HasJsonAction(r: Rule) {
    r.expiration.Some? || r.transitions != [] || r.noncurrentExpiration.Some?
  }

  function TranslateJson(rules: seq<Rule>): JsonRules {
    if rules == [] then Success([])
    else if rules[0].status != ENABLED then TranslateJson(rules[1..])
    else if HasJsonAction(rules[0]) && FilterError(rules[0].filter).Some? then Failure(FilterError(rules[0].filter).value)
    else
      var rest :- TranslateJson(rules[1..]);
      Success(JsonOutput(rules[0]) + rest)
  }

  function JsonThen(a: seq<JsonRule>, b: JsonRules): JsonRules {
    if b.Failure? then b else Success(a + b.value)
  }

  lemma JsonThenNothing(a: seq<JsonRule>, b: JsonRules)
    ensures JsonThen([], b) == b && JsonThen(a, Success([])) == Success(a)
  {
    if b.Success? {
      assert [] + b.value == b.value;
    }
    assert a + [] == a;
  }

  // The condition of a current-version action
  method FillJsonCondition(filter: Option<Filter>, days: Option<int>, date: Option<string>)
    returns (c: Result<JsonCondition, LifecycleError>)
    ensures c == match FilterError(filter)
                 case Some(e) => Failure(e)
                 case None =>
                   Success(NO_JSON_CONDITION.(age := days, matchesPrefix := Prefixes(filter),
                                              createdBefore := if date.Some? then Some(TruncateDate(date.value)) else None))
  {
    var cell := new ConditionCell(NO_JSON_CONDITION);
    var err := ApplyRuleFilter(filter, cell);
    if err.Some? {
      return Failure(err.value);
    }
    if days.Some? {
      cell.value := cell.value.(age := days);
    }
    if date.Some? {
      cell.value := cell.value.(createdBefore := Some(TruncateDate(date.value)));
    }
    return Success(cell.value);
  }

  /** One pass of the inner loop moves the next transition to the output. */
  lemma JsonTransitionsStep(rules: seq<JsonRule>, r: Rule, ts: seq<Transition>, j: nat)
    requires j < |ts|
    ensures var t := ts[j];
            rules + JsonTransitions(r, ts[j..])
            == (rules + [JsonAction(r, SET_STORAGE_CLASS, MapStorageClass(t.storageClass), t.days, t.date)])
               + JsonTransitions(r, ts[j + 1..])
  {
    assert ts[j..][0] == ts[j] && ts[j..][1..] == ts[j + 1..];
  }

  lemma JsonTransitionsDone(rules: seq<JsonRule>, r: Rule, ts: seq<Transition>)
    ensures rules + JsonTransitions(r, ts[|ts|..]) == rules
  {
    assert ts[|ts|..] == [];
  }

  // Its inner loop
  method TranslateJsonTransitions(s3Rule: Rule) returns (r: JsonRules)
    ensures r == if s3Rule.transitions != [] && FilterError(s3Rule.filter).Some?
                 then Failure(FilterError(s3Rule.filter).value)
                 else Success(JsonTransitions(s3Rule, s3Rule.transitions))
  {
    var rules: seq<JsonRule> := [];
    ghost var ts := s3Rule.transitions;
    ghost var all := JsonTransitions(s3Rule, ts);
    assert rules + all == all && ts[0..] == ts;
    for j := 0 to |s3Rule.transitions|
      invariant j > 0 ==> FilterError(s3Rule.filter).None?
      invariant rules + JsonTransitions(s3Rule, ts[j..]) == all
    {
      var trans := s3Rule.transitions[j];
      JsonTransitionsStep(rules, s3Rule, ts, j);
      var c :- FillJsonCondition(s3Rule.filter, trans.days, trans.date);
      rules := rules + [JsonRule(SET_STORAGE_CLASS, MapStorageClass(trans.storageClass), c)];
    }
    JsonTransitionsDone(rules, s3Rule, ts);
    return Success(rules);
  }

  // One pass of the loop of TranslateS3ToGCS over an enabled rule
  method TranslateJsonOne(s3Rule: Rule) returns (r: JsonRules)
    ensures r == if HasJsonAction(s3Rule) && FilterError(s3Rule.filter).Some?
                 then Failure(FilterError(s3Rule.filter).value)
                 else Success(JsonOutput(s3Rule))
  {
    var rules: seq<JsonRule> := [];
    if s3Rule.expiration.Some? {
      var c :- FillJsonCondition(s3Rule.filter, s3Rule.expiration.value.days, s3Rule.expiration.value.date);
      rules := rules + [JsonRule(DELETE, "", c)];
    }
    assert rules == JsonExpirations(s3Rule);
    var transitions :- TranslateJsonTransitions(s3Rule);
    rules := rules + transitions;
    if s3Rule.noncurrentExpiration.Some? {
      var cell := new ConditionCell(NO_JSON_CONDITION.(
        numNewerVersions := s3Rule.noncurrentExpiration.value.noncurrentDays, isLive := Some(false)));
      var err := ApplyRuleFilter(s3Rule.filter, cell);
      if err.Some? {
        return Failure(err.value);
      }
      rules := rules + [JsonRule(DELETE, "", cell.value)];
    }
    assert rules == JsonOutput(s3Rule);
    return Success(rules);
  }

  /** `TranslateS3ToGCS` up to the final JSON encoding. */
  method TranslateS3ToGcs(s3Rules: seq<Rule>) returns (r: JsonRules)
    ensures r == TranslateJson(s3Rules)
  {
    var rules: seq<JsonRule> := [];
    assert s3Rules[0..] == s3Rules;
    JsonThenNothing([], TranslateJson(s3Rules));
    for i := 0 to |s3Rules|
      invariant TranslateJson(s3Rules) == JsonThen(rules, TranslateJson(s3Rules[i..]))
    {
      var s3Rule := s3Rules[i];
      assert s3Rules[i..][1..] == s3Rules[i + 1..];
      if s3Rule.status != ENABLED {
        continue;
      }
      var out :- TranslateJsonOne(s3Rule);
      ghost var rest := TranslateJson(s3Rules[i + 1..]);
      assert rest.Success? ==> rules + (out + rest.value) == (rules + out) + rest.value;
      rules := rules + out;
    }
    assert s3Rules[|s3Rules|..] == [];
    JsonThenNothing(rules, Success([]));
    return Success(rules);
  }

  // The SDK structs back to S3

  function Decimal(n: nat): string {
    if n < 10 then [Digit(n)] else Decimal(n / 10) + [Digit(n % 10)]
  }

  function PositiveDays(days: int): Option<int> {
    if days > 0 then Some(days) else None
  }

  function BackDate(t: Instant): Option<string> {
    if t == ZERO_TIME then None else Some(FormatTimestamp(t))
  }

  function BackFilter(c: Condition): Option<Filter> {
    if |c.matchesPrefix| > 0 then Some(Filter(Some(c.matchesPrefix[0]), None, None, None, None)) else None
  }

  function EmptyRule(i: nat, c: Condition): Rule {
    Rule("rule-" + Decimal(i), 0, BackFilter(c), ENABLED, [], None, [], None, None)
  }

  function BackRule(i: nat, g: GcsRule): Rule {
    var c := g.condition;
    var base := EmptyRule(i, c);
    if g.action == DELETE && c.liveness == Archived then
      base.(noncurrentExpiration := Some(NoncurrentExpiration(PositiveDays(c.numNewerVersions))))
    else if g.action == DELETE then
      base.(expiration := Some(Expiration(PositiveDays(c.ageInDays), BackDate(c.createdBefore), None)))
    else if g.action == SET_STORAGE_CLASS then
      base.(transitions := [Transition(PositiveDays(c.ageInDays), BackDate(c.createdBefore),
                                       ReverseMapStorageClass(g.storageClass))])
    else if g.action == ABORT_UPLOAD && c.ageInDays > 0 then
      base.(abortUpload := Some(AbortUpload(Some(c.ageInDays))))
    else
      base
  }

  function BackFrom(i: nat, rules: seq<GcsRule>): seq<Rule>
    decreases rules
  {
    if rules == [] then [] else [BackRule(i, rules[0])] + BackFrom(i + 1, rules[1..])
  }

  function Back(rules: seq<GcsRule>): seq<Rule> {
    BackFrom(0, rules)
  }

  // One pass of the loop of TranslateGCSToS3Lifecycle
  method TranslateBackOne(i: nat, gcsRule: GcsRule) returns (s3Rule: Rule)
    ensures s3Rule == BackRule(i, gcsRule)
  {
    var c := gcsRule.condition;
    s3Rule := Rule("rule-" + Decimal(i), 0, None, ENABLED, [], None, [], None, None);
    if |c.matchesPrefix| > 0 {
      s3Rule := s3Rule.(filter := Some(Filter(Some(c.matchesPrefix[0]), None, None, None, None)));
    }
    if gcsRule.action == DELETE {
      if c.liveness == Archived {
        var nve := NoncurrentExpiration(None);
        if c.numNewerVersions > 0 {
          nve := nve.(noncurrentDays := Some(c.numNewerVersions));
        }
        s3Rule := s3Rule.(noncurrentExpiration := Some(nve));
      } else {
        var exp := Expiration(None, None, None);
        if c.ageInDays > 0 {
          exp := exp.(days := Some(c.ageInDays));
        }
        if c.createdBefore != ZERO_TIME {
          exp := exp.(date := Some(FormatTimestamp(c.createdBefore)));
        }
        s3Rule := s3Rule.(expiration := Some(exp));
      }
    } else if gcsRule.action == SET_STORAGE_CLASS {
      var trans := Transition(None, None, ReverseMapStorageClass(gcsRule.storageClass));
      if c.ageInDays > 0 {
        trans := trans.(days := Some(c.ageInDays));
      }
      if c.createdBefore != ZERO_TIME {
        trans := trans.(date := Some(FormatTimestamp(c.createdBefore)));
      }
      s3Rule := s3Rule.(transitions := s3Rule.transitions + [trans]);
    } else if gcsRule.action == ABORT_UPLOAD {
      if c.ageInDays > 0 {
        s3Rule := s3Rule.(abortUpload := Some(AbortUpload(Some(c.ageInDays))));
      }
    }
  }

  /** `TranslateGCSToS3Lifecycle`. */
  method TranslateGcsToS3Lifecycle(gcsRules: seq<GcsRule>) returns (s3Rules: seq<Rule>)
    ensures s3Rules == Back(gcsRules)
  {
    s3Rules := [];
    assert gcsRules[0..] == gcsRules;
    for i := 0 to |gcsRules|
      invariant s3Rules + BackFrom(i, gcsRules[i..]) == Back(gcsRules)
    {
      assert gcsRules[i..][1..] == gcsRules[i + 1..];
      var s3Rule := TranslateBackOne(i, gcsRules[i]);
      s3Rules := s3Rules + [s3Rule];
    }
    assert gcsRules[|gcsRules|..] == [];
  }
}
