/** CORS rules between S3 and GCS (pkg/translate/gcs_cors.go): the in-place deduplication of the
    headers that are dropped, and the conversion of seconds to a 64-bit nanosecond `Duration`. */
module CorsTranslate {
  import opened Wrappers

  /** An S3 rule as decoded; the header list is a slice the caller still holds. */
  datatype CorsRule = CorsRule(
    id: Option<string>,
    allowedHeaders: array<string>,
    allowedMethods: seq<string>,
    allowedOrigins: seq<string>,
    exposeHeaders: seq<string>,
    maxAgeSeconds: Option<int>)

  datatype GcsCors = GcsCors(maxAge: int, methods: seq<string>, origins: seq<string>, responseHeaders: seq<string>)

  // Durations

  const MIN_INT64 := -0x8000_0000_0000_0000
  const MAX_INT64 := 0x7FFF_FFFF_FFFF_FFFF
  const SECOND := 1_000_000_000

  predicate IsInt64(n: int) {
    MIN_INT64 <= n <= MAX_INT64
  }

  /** 64-bit wrap-around. */
  function Wrap64(n: int): (r: int)
    ensures -0x8000_0000_0000_0000 <= r < 0x8000_0000_0000_0000
    ensures exists k :: r == n + k * 0x1_0000_0000_0000_0000
  {
    var m := n % 0x1_0000_0000_0000_0000;
    assert m == n + (-(n / 0x1_0000_0000_0000_0000)) * 0x1_0000_0000_0000_0000;
    assert m - 0x1_0000_0000_0000_0000 == n + (-(n / 0x1_0000_0000_0000_0000) - 1) * 0x1_0000_0000_0000_0000;
    if m > MAX_INT64 then m - 0x1_0000_0000_0000_0000 else m
  }

  /** `time.Duration(seconds) * time.Second`. */
  function MaxAge(seconds: Option<int>): int {
    if seconds.None? then 0 else Wrap64(seconds.value * SECOND)
  }

  /** `MaxAge > 0` and `int(MaxAge.Seconds())`. */
  function BackSeconds(maxAge: int): Option<int> {
    if maxAge > 0 then Some(maxAge / SECOND) else None
  }

  /** A max age survives the trip exactly when it is positive and its nanoseconds fit a signed
      64-bit number, that is up to 9223372036 seconds; zero and absent both become absent. */
  lemma MaxAgeRoundTrip(seconds: Option<int>)
    requires seconds.Some? ==> IsInt64(seconds.value)
    ensures BackSeconds(MaxAge(seconds)) == seconds <==> seconds.None? || 1 <= seconds.value <= 9_223_372_036
    ensures seconds == Some(0) ==> BackSeconds(MaxAge(seconds)) == None
  {
  }

  // Deduplication

  predicate Seen(lower: string -> string, s: seq<string>, h: string) {
    exists g <- s :: lower(g) == lower(h)
  }

  /** The headers whose lower-case form does not occur before them. */
  function FirstOccurrences(lower: string -> string, s: seq<string>): seq<string> {
    if s == [] then []
    else
      var rest, last := s[..|s| - 1], s[|s| - 1];
      FirstOccurrences(lower, rest) + if Seen(lower, rest, last) then [] else [last]
  }

  lemma FirstOccurrencesStep(lower: string -> string, s: seq<string>, h: string)
    ensures FirstOccurrences(lower, s + [h]) ==
            if Seen(lower, s, h) then FirstOccurrences(lower, s) else FirstOccurrences(lower, s) + [h]
  {
    assert (s + [h])[..|s|] == s;
  }

  /** The lower-case forms of some headers. */
  ghost predicate AreForms(lower: string -> string, s: seq<string>, seen: set<string>) {
    forall l :: l in seen <==> exists g <- s :: lower(g) == l
  }

  lemma AreFormsStep(lower: string -> string, s: seq<string>, seen: set<string>, h: string)
    requires AreForms(lower, s, seen)
    ensures lower(h) in seen <==> Seen(lower, s, h)
    ensures AreForms(lower, s + [h], seen + {lower(h)})
  {
    assert forall g :: g in s + [h] <==> g in s || g == h;
  }

  /** The array after `i` headers have been read and `n` written: the first occurrences in front,
      the rest as before. */
  ghost predicate Midway(lower: string -> string, before: seq<string>, i: nat, now: seq<string>, n: nat, seen: set<string>) {
    && n <= i <= |before| == |now|
    && now[..n] == FirstOccurrences(lower, before[..i])
    && now[n..] == before[n..]
    && AreForms(lower, before[..i], seen)
  }

  lemma NextHeader(lower: string -> string, before: seq<string>, i: nat, seen: set<string>)
    requires i < |before| && AreForms(lower, before[..i], seen)
    ensures lower(before[i]) in seen ==> AreForms(lower, before[..i + 1], seen)
    ensures AreForms(lower, before[..i + 1], seen + {lower(before[i])})
    ensures FirstOccurrences(lower, before[..i + 1]) ==
            FirstOccurrences(lower, before[..i]) + if lower(before[i]) in seen then [] else [before[i]]
  {
    var s, h := before[..i], before[i];
    assert before[..i + 1] == s + [h];
    FirstOccurrencesStep(lower, s, h);
    AreFormsStep(lower, s, seen, h);
    if lower(h) in seen {
      assert seen + {lower(h)} == seen;
      assert FirstOccurrences(lower, s) + [] == FirstOccurrences(lower, s);
    }
  }

  lemma HeaderDropped(lower: string -> string, before: seq<string>, i: nat, now: seq<string>, n: nat, seen: set<string>)
    requires Midway(lower, before, i, now, n, seen) && i < |before| && lower(before[i]) in seen
    ensures Midway(lower, before, i + 1, now, n, seen)
  {
    NextHeader(lower, before, i, seen);
    assert now[..n] + [] == now[..n];
  }

  lemma HeaderKept(lower: string -> string, before: seq<string>, i: nat, now: seq<string>, n: nat, seen: set<string>)
    requires Midway(lower, before, i, now, n, seen) && i < |before| && lower(before[i]) !in seen
    ensures Midway(lower, before, i + 1, now[n := before[i]], n + 1, seen + {lower(before[i])})
  {
    NextHeader(lower, before, i, seen);
    var now' := now[n := before[i]];
    assert now'[..n + 1] == now[..n] + [before[i]];
    assert now'[n + 1..] == now[n..][1..] == before[n + 1..];
  }

  lemma ReadAhead(lower: string -> string, before: seq<string>, i: nat, now: seq<string>, n: nat, seen: set<string>)
    requires Midway(lower, before, i, now, n, seen) && i < |before|
    ensures now[i] == before[i]
  {
    assert now[n..][i - n] == before[n..][i - n];
  }

  // unique = append(unique, h), into the array unique is a prefix of
  method AppendAt(a: array<string>, n: nat, h: string) returns (m: nat)
    requires n < a.Length
    modifies a
    ensures m == n + 1
    ensures a[..] == old(a[..])[n := h]
  {
    a[n] := h;
    m := n + 1;
  }

  /** The loop over `unique := droppedHeaders[:0]`: it writes into the array it reads from, and the
      write index never passes the read index. */
  method DedupInPlace(lower: string -> string, a: array<string>) returns (n: nat)
    modifies a
    ensures n <= a.Length
    ensures a[..n] == FirstOccurrences(lower, old(a[..]))
    ensures a[n..] == old(a[n..])
  {
    ghost var before := a[..];
    var seen: set<string> := {};
    n := 0;
    for i := 0 to a.Length
      invariant Midway(lower, before, i, a[..], n, seen)
    {
      ReadAhead(lower, before, i, a[..], n, seen);
      var h := a[i];
      var l := lower(h);
      if l !in seen {
        HeaderKept(lower, before, i, a[..], n, seen);
        seen := seen + {l};
        n := AppendAt(a, n, h);
      } else {
        HeaderDropped(lower, before, i, a[..], n, seen);
      }
    }
    assert before[..|before|] == before;
  }

  ghost predicate IsSubsequence(t: seq<string>, s: seq<string>) {
    t == [] || (s != [] &&
      (IsSubsequence(t, s[..|s| - 1]) || (t[|t| - 1] == s[|s| - 1] && IsSubsequence(t[..|t| - 1], s[..|s| - 1]))))
  }

  lemma {:induction false} InSubsequence(t: seq<string>, s: seq<string>, h: string)
    requires IsSubsequence(t, s)
    ensures h in t ==> h in s
  {
    if t != [] {
      var rest := s[..|s| - 1];
      if IsSubsequence(t, rest) {
        InSubsequence(t, rest, h);
      } else {
        InSubsequence(t[..|t| - 1], rest, h);
      }
    }
  }

  lemma SeenConcat(lower: string -> string, a: seq<string>, b: seq<string>, h: string)
    ensures Seen(lower, a + b, h) <==> Seen(lower, a, h) || Seen(lower, b, h)
  {
    assert forall g :: g in a + b <==> g in a || g in b;
  }

  /** Exactly the headers that occur, up to case, are represented. */
  lemma {:induction false} SameSeen(lower: string -> string, s: seq<string>, h: string)
    ensures Seen(lower, s, h) <==> Seen(lower, FirstOccurrences(lower, s), h)
  {
    if s != [] {
      var rest, last := s[..|s| - 1], s[|s| - 1];
      assert s == rest + [last];
      SameSeen(lower, rest, h);
      SeenConcat(lower, rest, [last], h);
      SeenConcat(lower, FirstOccurrences(lower, rest), if Seen(lower, rest, last) then [] else [last], h);
      assert last in [last];
    }
  }

  lemma {:induction false} NoTwoEqual(lower: string -> string, s: seq<string>)
    ensures var t := FirstOccurrences(lower, s); forall i, j :: 0 <= i < j < |t| ==> lower(t[i]) != lower(t[j])
  {
    if s != [] {
      var rest, last := s[..|s| - 1], s[|s| - 1];
      var t := FirstOccurrences(lower, rest);
      NoTwoEqual(lower, rest);
      SameSeen(lower, rest, last);
      assert !Seen(lower, rest, last) ==> forall g <- t :: lower(g) != lower(last);
      assert forall i :: 0 <= i < |t| ==> t[i] in t;
    }
  }

  lemma {:induction false} KeepsOrder(lower: string -> string, s: seq<string>)
    ensures IsSubsequence(FirstOccurrences(lower, s), s)
  {
    if s != [] {
      var rest, last := s[..|s| - 1], s[|s| - 1];
      KeepsOrder(lower, rest);
      var t := FirstOccurrences(lower, rest);
      if !Seen(lower, rest, last) {
        assert (t + [last])[..|t|] == t;
      } else {
        assert t + [] == t;
      }
    }
  }

  lemma {:induction false} KeepsFirsts(lower: string -> string, s: seq<string>, k: nat)
    requires k < |s| && !Seen(lower, s[..k], s[k])
    ensures s[k] in FirstOccurrences(lower, s)
  {
    if k < |s| - 1 {
      var rest := s[..|s| - 1];
      assert rest[..k] == s[..k];
      KeepsFirsts(lower, rest, k);
    }
  }

  /** What deduplication means: a subsequence, without two headers equal up to case, in which every
      header is represented, namely by its first occurrence. */
  lemma FirstOccurrencesMeaning(lower: string -> string, s: seq<string>)
    ensures var t := FirstOccurrences(lower, s);
            && IsSubsequence(t, s)
            && (forall i, j :: 0 <= i < j < |t| ==> lower(t[i]) != lower(t[j]))
            && (forall h <- s :: Seen(lower, t, h))
            && (forall k :: 0 <= k < |s| && !Seen(lower, s[..k], s[k]) ==> s[k] in t)
  {
    KeepsOrder(lower, s);
    NoTwoEqual(lower, s);
    forall h <- s
      ensures Seen(lower, FirstOccurrences(lower, s), h)
    {
      assert Seen(lower, s, h);
      SameSeen(lower, s, h);
    }
    forall k | 0 <= k < |s| && !Seen(lower, s[..k], s[k]) {
      KeepsFirsts(lower, s, k);
    }
  }

  // The translation

  ghost function Headers(rules: seq<CorsRule>): seq<string>
    reads set i | 0 <= i < |rules| :: rules[i].allowedHeaders
  {
    if rules == [] then []
    else Headers(rules[..|rules| - 1]) + rules[|rules| - 1].allowedHeaders[..]
  }

  ghost predicate DroppedFrom(rules: seq<CorsRule>, h: string)
    reads set i | 0 <= i < |rules| :: rules[i].allowedHeaders
  {
    exists i :: 0 <= i < |rules| && h in rules[i].allowedHeaders[..]
  }

  /** The headers that are dropped are the allowed headers of all rules. */
  lemma {:induction false} HeadersOfAllRules(rules: seq<CorsRule>, h: string)
    ensures h in Headers(rules) <==> DroppedFrom(rules, h)
  {
    if rules != [] {
      var rest, last := rules[..|rules| - 1], rules[|rules| - 1];
      HeadersOfAllRules(rest, h);
      assert h in Headers(rules) <==> h in Headers(rest) || h in last.allowedHeaders[..];
      if DroppedFrom(rest, h) {
        var i :| 0 <= i < |rest| && h in rest[i].allowedHeaders[..];
        assert rules[i] == rest[i];
      }
      if i :| 0 <= i < |rules| && h in rules[i].allowedHeaders[..] {
        assert i < |rest| ==> rest[i] == rules[i];
      }
    }
  }

  function ToGcs(rule: CorsRule): GcsCors {
    GcsCors(MaxAge(rule.maxAgeSeconds), rule.allowedMethods, rule.allowedOrigins, rule.exposeHeaders)
  }

  /** Each field of a GCS rule comes from its own field of the S3 rule; a max age that fits is exact. */
  lemma FieldsToGcs(rule: CorsRule)
    ensures var g, seconds := ToGcs(rule), rule.maxAgeSeconds.GetOr(0);
            && g.methods == rule.allowedMethods && g.origins == rule.allowedOrigins && g.responseHeaders == rule.exposeHeaders
            && (IsInt64(seconds * 1_000_000_000) ==> g.maxAge == seconds * 1_000_000_000)
  {
  }

  /** The caller is told of every allowed header, up to case, and of no other. */
  lemma DroppedHeaders(lower: string -> string, rules: seq<CorsRule>, h: string)
    ensures var dropped := FirstOccurrences(lower, Headers(rules));
            && (DroppedFrom(rules, h) ==> Seen(lower, dropped, h))
            && (h in dropped ==> DroppedFrom(rules, h))
  {
    var collected := Headers(rules);
    HeadersOfAllRules(rules, h);
    FirstOccurrencesMeaning(lower, collected);
    InSubsequence(FirstOccurrences(lower, collected), collected, h);
  }

  // The dropped headers once collected: only their own array is written to
  method Deduplicated(lower: string -> string, collected: seq<string>) returns (dropped: seq<string>)
    ensures dropped == FirstOccurrences(lower, collected)
  {
    dropped := collected;
    if |collected| > 0 {
      var headers := new string[|collected|](i requires 0 <= i < |collected| => collected[i]);
      assert headers[..] == collected;
      var n := DedupInPlace(lower, headers);
      dropped := headers[..n];
    }
  }

  /** `TranslateS3ToGCSCors`: it changes nothing its caller can see, the header slices included,
      although the deduplication is in place: `append` has copied the headers first. */
  method TranslateS3ToGcsCors(lower: string -> string, rules: seq<CorsRule>)
    returns (cors: seq<GcsCors>, dropped: seq<string>)
    ensures |cors| == |rules| && forall i :: 0 <= i < |rules| ==> cors[i] == ToGcs(rules[i])
    ensures dropped == FirstOccurrences(lower, Headers(rules))
  {
    cors := [];
    var collected: seq<string> := [];
    for i := 0 to |rules|
      invariant |cors| == i && forall j :: 0 <= j < i ==> cors[j] == ToGcs(rules[j])
      invariant collected == Headers(rules[..i])
    {
      var rule := rules[i];
      assert rules[..i + 1][..i] == rules[..i];
      var maxAge := 0;
      if rule.maxAgeSeconds.Some? {
        maxAge := Wrap64(rule.maxAgeSeconds.value * SECOND);
      }
      if rule.allowedHeaders.Length > 0 {
        collected := collected + rule.allowedHeaders[..];
      } else {
        assert rule.allowedHeaders[..] == [];
      }
      cors := cors + [GcsCors(maxAge, rule.allowedMethods, rule.allowedOrigins, rule.exposeHeaders)];
    }
    assert rules[..|rules|] == rules;
    dropped := Deduplicated(lower, collected);
  }

  /** What is left of an S3 rule after a Put and a Get. */
  datatype CorsView = CorsView(methods: seq<string>, origins: seq<string>, exposeHeaders: seq<string>, maxAgeSeconds: Option<int>)

  function ToS3(cors: GcsCors): CorsView {
    CorsView(cors.methods, cors.origins, cors.responseHeaders, BackSeconds(cors.maxAge))
  }

  lemma FieldsToS3(cors: GcsCors)
    ensures var v := ToS3(cors);
            && v.methods == cors.methods && v.origins == cors.origins && v.exposeHeaders == cors.responseHeaders
            && v.maxAgeSeconds == if cors.maxAge > 0 then Some(cors.maxAge / 1_000_000_000) else None
  {
  }

  /** `TranslateGCSToS3Cors`; an empty list becomes no configuration at all. */
  method TranslateGcsToS3Cors(cors: seq<GcsCors>) returns (views: Option<seq<CorsView>>)
    ensures views.None? <==> cors == []
    ensures views.Some? ==> |views.value| == |cors| && forall i :: 0 <= i < |cors| ==> views.value[i] == ToS3(cors[i])
  {
    if |cors| == 0 {
      return None;
    }
    var out: seq<CorsView> := [];
    for i := 0 to |cors|
      invariant |out| == i && forall j :: 0 <= j < i ==> out[j] == ToS3(cors[j])
    {
      var maxAge: Option<int> := None;
      if cors[i].maxAge > 0 {
        maxAge := Some(cors[i].maxAge / SECOND);
      }
      out := out + [CorsView(cors[i].methods, cors[i].origins, cors[i].responseHeaders, maxAge)];
    }
    return Some(out);
  }

  /** S3 to GCS to S3, rule by rule and in order: methods, origins and exposed headers come back as
      they were, and the max age does exactly when it is absent or from 1 to 9223372036 seconds. */
  method RoundTrip(lower: string -> string, rules: seq<CorsRule>) returns (views: Option<seq<CorsView>>)
    requires forall r <- rules :: r.maxAgeSeconds.Some? ==> IsInt64(r.maxAgeSeconds.value)
    ensures views.None? <==> rules == []
    ensures views.Some? ==> |views.value| == |rules| && forall i :: 0 <= i < |rules| ==>
              var r, v := rules[i], views.value[i];
              && v.methods == r.allowedMethods && v.origins == r.allowedOrigins && v.exposeHeaders == r.exposeHeaders
              && (v.maxAgeSeconds == r.maxAgeSeconds <==> r.maxAgeSeconds.None? || 1 <= r.maxAgeSeconds.value <= 9_223_372_036)
  {
    var cors, dropped := TranslateS3ToGcsCors(lower, rules);
    forall r <- rules {
      MaxAgeRoundTrip(r.maxAgeSeconds);
    }
    views := TranslateGcsToS3Cors(cors);
  }
}
