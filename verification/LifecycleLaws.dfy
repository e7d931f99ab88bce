/** Structure of the S3 to GCS lifecycle translation: it is compositional, it rejects exactly the
    configurations it must, and the two translators agree. */
module LifecycleLaws {
  import opened Wrappers
  import opened CivilDate
  import opened LifecycleModel
  import opened LifecycleTranslate

  // Compositionality

  /** Translating a concatenation is translating the parts, in order; the first failure wins. */
  lemma {:induction false} TranslateConcat(a: seq<Rule>, b: seq<Rule>)
    ensures Translate(a + b) == Then(Translate(a), Translate(b))
  {
    if a == [] {
      assert [] + b == b;
      ThenNothing(Translate(b));
    } else {
      assert (a + b)[1..] == a[1..] + b;
      TranslateConcat(a[1..], b);
      ThenAssociative(RuleOutput(a[0]), Translate(a[1..]), Translate(b));
    }
  }

  /** A rule that is not enabled can be erased wherever it stands, whatever else it says. */
  lemma DisabledRuleErased(a: seq<Rule>, d: Rule, b: seq<Rule>)
    requires d.status != ENABLED
    ensures Translate(a + [d] + b) == Translate(a + b)
  {
    TranslateConcat(a + [d], b);
    TranslateConcat(a, [d]);
    TranslateConcat(a, b);
    assert [d][1..] == [] && RuleOutput(d) == Success([]);
    ThenNothing(Success([]));
    ThenNothing(Translate(a));
  }

  // Rejection

  predicate UnsupportedFilter(filter: Option<Filter>) {
    filter.Some? &&
    var f := filter.value;
    || f.tag.Some?
    || f.sizeGreaterThan.Some?
    || f.sizeLessThan.Some?
    || (f.and.Some? && (f.and.value.tags != [] || f.and.value.sizeGreaterThan.Some? || f.and.value.sizeLessThan.Some?))
  }

  /** A date that does not start with the print of any calendar date. */
  ghost predicate NotADate(date: Option<string>) {
    date.Some? && forall d: CalendarDate :: !(FormatDate(d) <= date.value)
  }

  ghost predicate NotADateAt(ts: seq<Transition>, k: int) {
    0 <= k < |ts| && NotADate(ts[k].date)
  }

  ghost predicate Rejected(r: Rule) {
    r.status == "Enabled" && (
      || UnsupportedFilter(r.filter)
      || (r.expiration.Some? && NotADate(r.expiration.value.date))
      || exists k :: NotADateAt(r.transitions, k))
  }

  lemma NotADateMeans(date: Option<string>)
    ensures NotADate(date) <==> CreatedBefore(date).None?
  {
    if date.Some? {
      forall d: CalendarDate {
        ParsesIffPrinted(date.value, d);
      }
    }
  }

  lemma NotADateInTail(ts: seq<Transition>, k: int)
    requires ts != []
    ensures NotADateAt(ts[1..], k) <==> k >= 0 && NotADateAt(ts, k + 1)
  {
  }

  lemma {:induction false} TransitionsFail(filter: Option<Filter>, ts: seq<Transition>)
    ensures TransitionRules(filter, ts).Failure? <==> exists k :: NotADateAt(ts, k)
  {
    if ts != [] {
      NotADateMeans(ts[0].date);
      TransitionsFail(filter, ts[1..]);
      if NotADate(ts[0].date) {
        assert NotADateAt(ts, 0);
      }
      forall k {
        NotADateInTail(ts, k);
      }
      if k :| NotADateAt(ts, k) {
        assert k > 0 ==> NotADateAt(ts[1..], k - 1);
      }
    }
  }

  lemma RuleFails(r: Rule)
    ensures RuleOutput(r).Failure? <==> Rejected(r)
  {
    if r.expiration.Some? {
      NotADateMeans(r.expiration.value.date);
    }
    TransitionsFail(r.filter, r.transitions);
  }

  /** The translation fails exactly when some enabled rule filters by size or tag, or carries a
      date that is no calendar date; the first such rule decides the error. */
  lemma {:induction false} TranslateFailsIffRejected(rules: seq<Rule>)
    ensures Translate(rules).Failure? <==> exists k :: 0 <= k < |rules| && Rejected(rules[k])
    ensures forall k :: 0 <= k < |rules| && Rejected(rules[k]) && (forall i :: 0 <= i < k ==> !Rejected(rules[i])) ==>
              Translate(rules) == RuleOutput(rules[k])
  {
    if rules != [] {
      RuleFails(rules[0]);
      TranslateFailsIffRejected(rules[1..]);
      forall k | 0 <= k < |rules| && Rejected(rules[k]) && (forall i :: 0 <= i < k ==> !Rejected(rules[i]))
        ensures Translate(rules) == RuleOutput(rules[k])
      {
        if k > 0 {
          assert !Rejected(rules[0]);
          assert rules[1..][k - 1] == rules[k];
          assert forall i :: 0 <= i < k - 1 ==> rules[1..][i] == rules[i + 1];
          RuleFails(rules[k]);
        }
      }
    }
  }

  /** The filter error, by the first of the four tests that applies. */
  lemma FilterReason(filter: Option<Filter>)
    requires filter.Some?
    ensures var f, e := filter.value, FilterError(filter);
            if f.sizeGreaterThan.Some? || f.sizeLessThan.Some? then e == Some(SizeFilter)
            else if f.tag.Some? then e == Some(TagFilter)
            else if f.and.None? then e == None
            else if f.and.value.sizeGreaterThan.Some? || f.and.value.sizeLessThan.Some? then e == Some(SizeFilterInAnd)
            else e == if f.and.value.tags != [] then Some(TagFilterInAnd) else None
  {
  }

  /** Within a rejected rule: the filter is reported before the expiration date, that before the
      transition dates, and of those the first; a date error quotes the offending date. */
  lemma RejectionReason(r: Rule)
    requires Rejected(r)
    ensures RuleOutput(r).Failure?
    ensures var e := RuleOutput(r).error;
            if UnsupportedFilter(r.filter) then Some(e) == FilterError(r.filter)
            else if r.expiration.Some? && NotADate(r.expiration.value.date) then
              e == InvalidExpirationDate(r.expiration.value.date.value)
            else
              exists k :: NotADateAt(r.transitions, k)
                && (forall i :: 0 <= i < k ==> !NotADateAt(r.transitions, i))
                && e == InvalidTransitionDate(r.transitions[k].date.value)
  {
    RuleFails(r);
    if r.expiration.Some? {
      NotADateMeans(r.expiration.value.date);
    }
    if !UnsupportedFilter(r.filter) && !(r.expiration.Some? && NotADate(r.expiration.value.date)) {
      var k := FirstBadTransition(r.filter, r.transitions);
      assert RuleOutput(r) == TransitionRules(r.filter, r.transitions);
    }
  }

  lemma {:induction false} FirstBadTransition(filter: Option<Filter>, ts: seq<Transition>) returns (k: nat)
    requires exists i :: NotADateAt(ts, i)
    ensures NotADateAt(ts, k) && forall i :: 0 <= i < k ==> !NotADateAt(ts, i)
    ensures TransitionRules(filter, ts) == Failure(InvalidTransitionDate(ts[k].date.value))
  {
    NotADateMeans(ts[0].date);
    if NotADate(ts[0].date) {
      k := 0;
    } else {
      var i :| NotADateAt(ts, i);
      NotADateInTail(ts, i - 1);
      var j := FirstBadTransition(filter, ts[1..]);
      k := j + 1;
      NotADateInTail(ts, j);
      forall i | 0 <= i < k
        ensures !NotADateAt(ts, i)
      {
        NotADateInTail(ts, i - 1);
      }
    }
  }

  // The two translators

  /** A JSON rule read field by field as an SDK rule; None if its date is no calendar date. */
  function ReadJson(j: JsonRule): Option<GcsRule> {
    var c := j.condition;
    match CreatedBefore(c.createdBefore)
    case None => None
    case Some(t) =>
      Some(GcsRule(j.action, j.storageClass, Condition(
        c.age.GetOr(0), t,
        match c.isLive { case None => LiveAndArchived case Some(true) => Live case Some(false) => Archived },
        c.matchesPrefix, c.matchesSuffix, c.matchesStorageClass, c.numNewerVersions.GetOr(0))))
  }

  function ReadAll(js: seq<JsonRule>): Option<seq<GcsRule>> {
    if js == [] then Some([])
    else match (ReadJson(js[0]), ReadAll(js[1..]))
         case (Some(g), Some(gs)) => Some([g] + gs)
         case _ => None
  }

  function WithoutAborts(gs: seq<GcsRule>): seq<GcsRule> {
    if gs == [] then []
    else if gs[0].action == ABORT_UPLOAD then WithoutAborts(gs[1..])
    else [gs[0]] + WithoutAborts(gs[1..])
  }

  lemma ConsConcat<T>(x: T, a: seq<T>, b: seq<T>)
    ensures [x] + (a + b) == ([x] + a) + b
  {
  }

  lemma ReadAllStep(j: JsonRule, js: seq<JsonRule>)
    ensures ReadAll([j] + js).Some? <==> ReadJson(j).Some? && ReadAll(js).Some?
    ensures ReadAll([j] + js).Some? ==> ReadAll([j] + js).value == [ReadJson(j).value] + ReadAll(js).value
  {
    assert ([j] + js)[1..] == js;
  }

  lemma {:induction false} ReadAllConcat(a: seq<JsonRule>, b: seq<JsonRule>)
    ensures ReadAll(a + b).Some? <==> ReadAll(a).Some? && ReadAll(b).Some?
    ensures ReadAll(a + b).Some? ==> ReadAll(a + b).value == ReadAll(a).value + ReadAll(b).value
  {
    if a == [] {
      assert [] + b == b;
    } else {
      var j, js := a[0], a[1..];
      assert a == [j] + js;
      ConsConcat(j, js, b);
      ReadAllConcat(js, b);
      ReadAllStep(j, js);
      ReadAllStep(j, js + b);
      if ReadJson(j).Some? && ReadAll(js + b).Some? {
        ConsConcat(ReadJson(j).value, ReadAll(js).value, ReadAll(b).value);
      }
    }
  }

  lemma {:induction false} WithoutAbortsConcat(a: seq<GcsRule>, b: seq<GcsRule>)
    ensures WithoutAborts(a + b) == WithoutAborts(a) + WithoutAborts(b)
  {
    if a == [] {
      assert [] + b == b;
    } else {
      assert (a + b)[1..] == a[1..] + b;
      WithoutAbortsConcat(a[1..], b);
    }
  }

  lemma ReadAction(r: Rule, action: string, storageClass: string, days: Option<int>, date: Option<string>)
    ensures ReadJson(JsonAction(r, action, storageClass, days, date)) ==
            match CreatedBefore(date)
            case None => None
            case Some(t) =>
              Some(GcsRule(action, storageClass, NO_CONDITION.(ageInDays := days.GetOr(0), createdBefore := t,
                                                               matchesPrefix := Prefixes(r.filter))))
  {
    if date.Some? {
      assert TruncateDate(TruncateDate(date.value)) == TruncateDate(date.value);
    }
  }

  lemma ReadOne(j: JsonRule)
    ensures ReadAll([j]).Some? == ReadJson(j).Some?
    ensures ReadJson(j).Some? ==> ReadAll([j]).value == [ReadJson(j).value]
  {
    assert [j][1..] == [];
  }

  lemma {:induction false} TransitionsAgree(r: Rule, ts: seq<Transition>)
    ensures TransitionRules(r.filter, ts).Success? <==> ReadAll(JsonTransitions(r, ts)).Some?
    ensures TransitionRules(r.filter, ts).Success? ==>
              && ReadAll(JsonTransitions(r, ts)).value == TransitionRules(r.filter, ts).value
              && WithoutAborts(TransitionRules(r.filter, ts).value) == TransitionRules(r.filter, ts).value
  {
    if ts != [] {
      TransitionsAgree(r, ts[1..]);
      var j := JsonAction(r, SET_STORAGE_CLASS, MapStorageClass(ts[0].storageClass), ts[0].days, ts[0].date);
      ReadAction(r, SET_STORAGE_CLASS, MapStorageClass(ts[0].storageClass), ts[0].days, ts[0].date);
      assert JsonTransitions(r, ts)[0] == j;
      assert JsonTransitions(r, ts)[1..] == JsonTransitions(r, ts[1..]);
      if TransitionRule(r.filter, ts[0]).Success? && TransitionRules(r.filter, ts[1..]).Success? {
        var g := TransitionRule(r.filter, ts[0]).value;
        var rest := TransitionRules(r.filter, ts[1..]).value;
        assert ReadJson(j) == Some(g);
        assert ([g] + rest)[1..] == rest;
      }
    }
  }

  lemma ExpirationsAgree(r: Rule)
    ensures ExpirationRules(r).Success? <==> ReadAll(JsonExpirations(r)).Some?
    ensures ExpirationRules(r).Success? ==>
              && ReadAll(JsonExpirations(r)).value == ExpirationRules(r).value
              && WithoutAborts(ExpirationRules(r).value) == ExpirationRules(r).value
  {
    if r.expiration.Some? {
      ReadAction(r, DELETE, "", r.expiration.value.days, r.expiration.value.date);
      ReadOne(JsonExpirations(r)[0]);
    }
  }

  lemma NoncurrentAgree(r: Rule)
    ensures ReadAll(JsonNoncurrent(r)) == Some(NoncurrentRules(r).value)
    ensures WithoutAborts(NoncurrentRules(r).value) == NoncurrentRules(r).value
    ensures WithoutAborts(AbortRules(r).value) == []
  {
    if r.noncurrentExpiration.Some? {
      ReadOne(JsonNoncurrent(r)[0]);
    }
  }

  /** One enabled rule, through both translators. */
  lemma RuleAgrees(r: Rule)
    requires r.status == ENABLED
    ensures RuleOutput(r).Success? <==> FilterError(r.filter).None? && ReadAll(JsonOutput(r)).Some?
    ensures RuleOutput(r).Success? ==> ReadAll(JsonOutput(r)).value == WithoutAborts(RuleOutput(r).value)
  {
    ExpirationsAgree(r);
    TransitionsAgree(r, r.transitions);
    NoncurrentAgree(r);
    ReadAllConcat(JsonExpirations(r) + JsonTransitions(r, r.transitions), JsonNoncurrent(r));
    ReadAllConcat(JsonExpirations(r), JsonTransitions(r, r.transitions));
    if RuleOutput(r).Success? {
      AbortsDropOut(ExpirationRules(r).value, TransitionRules(r.filter, r.transitions).value,
                    NoncurrentRules(r).value, AbortRules(r).value);
    }
  }

  lemma Regroup(e: seq<GcsRule>, t: seq<GcsRule>, n: seq<GcsRule>)
    ensures n + [] == n && e + (t + n) == e + t + n
  {
  }

  lemma AbortsDropOut(e: seq<GcsRule>, t: seq<GcsRule>, n: seq<GcsRule>, a: seq<GcsRule>)
    requires WithoutAborts(e) == e && WithoutAborts(t) == t && WithoutAborts(n) == n && WithoutAborts(a) == []
    ensures WithoutAborts(e + (t + (n + a))) == e + t + n
  {
    WithoutAbortsConcat(e, t + (n + a));
    WithoutAbortsConcat(t, n + a);
    WithoutAbortsConcat(n, a);
    Regroup(e, t, n);
  }

  /** The older translator looks at the filter of a rule it must reject: it has something to emit. */
  predicate Noticed(r: Rule) {
    r.status == "Enabled" && UnsupportedFilter(r.filter) ==>
      r.expiration.Some? || |r.transitions| > 0 || r.noncurrentExpiration.Some?
  }

  /** What the agreement says of a configuration. */
  ghost predicate Agree(rules: seq<Rule>) {
    && (Translate(rules).Success? <==>
          && TranslateJson(rules).Success?
          && ReadAll(TranslateJson(rules).value).Some?
          && (forall r <- rules :: Noticed(r)))
    && (Translate(rules).Success? ==> ReadAll(TranslateJson(rules).value).value == WithoutAborts(Translate(rules).value))
  }

  lemma NoticedStep(r: Rule, rest: seq<Rule>)
    ensures (forall s <- [r] + rest :: Noticed(s)) <==> Noticed(r) && forall s <- rest :: Noticed(s)
  {
    assert forall s :: s in [r] + rest <==> s == r || s in rest;
  }

  lemma TranslateStep(r: Rule, rest: seq<Rule>)
    ensures Translate([r] + rest) == Then(RuleOutput(r), Translate(rest))
    ensures TranslateJson([r] + rest) ==
            if r.status != ENABLED then TranslateJson(rest)
            else if HasJsonAction(r) && FilterError(r.filter).Some? then Failure(FilterError(r.filter).value)
            else JsonThen(JsonOutput(r), TranslateJson(rest))
  {
    assert ([r] + rest)[1..] == rest;
  }

  lemma DisabledStep(r: Rule, rest: seq<Rule>)
    requires r.status != ENABLED && Agree(rest)
    ensures Agree([r] + rest)
  {
    TranslateStep(r, rest);
    NoticedStep(r, rest);
    ThenNothing(Translate(rest));
  }

  lemma EnabledStep(r: Rule, rest: seq<Rule>)
    requires r.status == ENABLED && Agree(rest)
    ensures Agree([r] + rest)
  {
    TranslateStep(r, rest);
    NoticedStep(r, rest);
    RuleAgrees(r);
    assert Noticed(r) && FilterError(r.filter).Some? ==> HasJsonAction(r);
    if TranslateJson(rest).Success? {
      ReadAllConcat(JsonOutput(r), TranslateJson(rest).value);
    }
    if RuleOutput(r).Success? && Translate(rest).Success? {
      WithoutAbortsConcat(RuleOutput(r).value, Translate(rest).value);
    }
  }

  /** When the SDK translator succeeds, so does the JSON translator, and its rules, read as SDK
      rules, are the SDK rules in order with the multipart-abort rules removed. Conversely the
      JSON translator accepts more in two ways only: it copies dates without parsing them, and it
      ignores the filter of a rule for which it has nothing to emit. */
  lemma {:induction false} TranslatorsAgree(rules: seq<Rule>)
    ensures Translate(rules).Success? <==>
              && TranslateJson(rules).Success?
              && ReadAll(TranslateJson(rules).value).Some?
              && (forall r <- rules :: Noticed(r))
    ensures Translate(rules).Success? ==>
              ReadAll(TranslateJson(rules).value).value == WithoutAborts(Translate(rules).value)
  {
    AllAgree(rules);
  }

  lemma {:induction false} AllAgree(rules: seq<Rule>)
    ensures Agree(rules)
  {
    if rules != [] {
      var r, rest := rules[0], rules[1..];
      assert rules == [r] + rest;
      AllAgree(rest);
      if r.status == ENABLED {
        EnabledStep(r, rest);
      } else {
        DisabledStep(r, rest);
      }
    }
  }

  // Dates in the JSON output

  /** A date that an enabled rule gives for an action. */
  ghost predicate Gives(r: Rule, date: string) {
    r.status == "Enabled" &&
      ((r.expiration.Some? && r.expiration.value.date == Some(date)) || exists t <- r.transitions :: t.date == Some(date))
  }

  /** At most the first ten bytes of a date. */
  predicate FirstTen(cut: string, date: string) {
    cut <= date && |cut| == if |date| < 10 then |date| else 10
  }

  ghost predicate DateGiven(rules: seq<Rule>, j: JsonRule) {
    j.condition.createdBefore.Some? ==>
      exists r, date :: r in rules && Gives(r, date) && FirstTen(j.condition.createdBefore.value, date)
  }

  lemma {:induction false} JsonTransitionDates(r: Rule, ts: seq<Transition>, j: JsonRule)
    requires r.status == ENABLED && (forall t <- ts :: t in r.transitions) && j in JsonTransitions(r, ts)
    ensures DateGiven([r], j)
  {
    var t, rest := ts[0], ts[1..];
    assert t in ts && forall u <- rest :: u in ts;
    if j in JsonTransitions(r, rest) {
      JsonTransitionDates(r, rest, j);
    } else if t.date.Some? {
      assert r in [r] && Gives(r, t.date.value) && FirstTen(j.condition.createdBefore.value, t.date.value);
    }
  }

  lemma JsonOutputDates(r: Rule, j: JsonRule)
    requires r.status == ENABLED && j in JsonOutput(r)
    ensures DateGiven([r], j)
  {
    if j in JsonTransitions(r, r.transitions) {
      JsonTransitionDates(r, r.transitions, j);
    } else if j in JsonExpirations(r) && r.expiration.value.date.Some? {
      var date := r.expiration.value.date.value;
      assert r in [r] && Gives(r, date) && FirstTen(j.condition.createdBefore.value, date);
    }
  }

  /** Every date the older translator emits is at most the first ten bytes of one that was given to it,
      checked or not. */
  lemma {:induction false} JsonDates(rules: seq<Rule>, j: JsonRule)
    requires TranslateJson(rules).Success? && j in TranslateJson(rules).value
    ensures DateGiven(rules, j)
  {
    var r, rest := rules[0], rules[1..];
    assert r in rules && forall s <- rest :: s in rules;
    if r.status == ENABLED && j in JsonOutput(r) {
      JsonOutputDates(r, j);
    } else {
      JsonDates(rest, j);
    }
  }
}
