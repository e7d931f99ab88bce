/** Object tags as GCS object contexts (pkg/translate/gcs_tagging.go), and what GCS does with the
    patch a tagging request sends. */
module TaggingTranslate {
  import opened Wrappers

  /** `ObjectContexts.Custom` as stored: context key to value. */
  type Contexts = map<string, string>

  /** `storage.ObjectCustomContextPayload` in an update. */
  datatype Payload = Payload(value: string, delete: bool)

  type Patch = map<string, Payload>

  // The S3 side: a tag set replaces every tag, and the last value given for a key counts

  function TagMap(tags: seq<Tag>): Contexts {
    if tags == [] then map[]
    else TagMap(tags[..|tags| - 1])[tags[|tags| - 1].key := tags[|tags| - 1].value]
  }

  lemma {:induction false} TagMapKeys(tags: seq<Tag>, k: string)
    ensures k in TagMap(tags) <==> exists t <- tags :: t.key == k
  {
    if tags != [] {
      var rest, last := tags[..|tags| - 1], tags[|tags| - 1];
      TagMapKeys(rest, k);
      assert tags == rest + [last];
      assert forall t :: t in tags <==> t in rest || t == last;
    }
  }

  /** `TagMap` is the last value given: nothing after position i names its key again. */
  lemma {:induction false} LastValueCounts(tags: seq<Tag>, i: nat)
    requires i < |tags| && forall j :: i < j < |tags| ==> tags[j].key != tags[i].key
    ensures tags[i].key in TagMap(tags) && TagMap(tags)[tags[i].key] == tags[i].value
  {
    if i < |tags| - 1 {
      LastValueCounts(tags[..|tags| - 1], i);
    }
  }

  // The patch

  function DeleteMarks(existing: Option<Contexts>): Patch {
    match existing
    case Some(m) => map k | k in m :: Payload("", true)
    case None => map[]
  }

  /** The patch: a delete mark for each old key without a new value, an upsert for each new tag. */
  function ContextsPatch(tags: seq<Tag>, existing: Option<Contexts>): Patch {
    DeleteMarks(existing) + (map k | k in TagMap(tags) :: Payload(TagMap(tags)[k], false))
  }

  lemma PatchGrows(tags: seq<Tag>, tag: Tag, existing: Option<Contexts>)
    ensures ContextsPatch(tags + [tag], existing) == ContextsPatch(tags, existing)[tag.key := Payload(tag.value, false)]
  {
    assert (tags + [tag])[..|tags|] == tags;
    assert TagMap(tags + [tag]) == TagMap(tags)[tag.key := tag.value];
  }

  /** `TranslateS3ToGCSContexts`; the map loop visits the old keys in no fixed order. */
  method TranslateS3ToGcsContexts(tags: seq<Tag>, existing: Option<Contexts>) returns (custom: Patch)
    ensures custom == ContextsPatch(tags, existing)
  {
    custom := map[];
    if existing.Some? {
      var remaining := existing.value.Keys;
      while remaining != {}
        invariant remaining <= existing.value.Keys
        invariant custom == map k | k in existing.value && k !in remaining :: Payload("", true)
      {
        var k :| k in remaining;
        custom := custom[k := Payload("", true)];
        remaining := remaining - {k};
      }
    }
    assert custom == DeleteMarks(existing);
    for i := 0 to |tags|
      invariant custom == ContextsPatch(tags[..i], existing)
    {
      var tag := tags[i];
      PatchGrows(tags[..i], tag, existing);
      assert tags[..i + 1] == tags[..i] + [tag];
      custom := custom[tag.key := Payload(tag.value, false)];
    }
    assert tags[..|tags|] == tags;
  }

  // What GCS does with a patch

  /** An empty `Custom` map removes every context key; otherwise each entry deletes or sets its
      key and the keys it does not mention stay. */
  function ApplyPatch(contexts: Contexts, patch: Patch): Contexts {
    if patch == map[] then map[]
    else
      map k | k in contexts.Keys + patch.Keys && (k in patch ==> !patch[k].delete) ::
        if k in patch then patch[k].value else contexts[k]
  }

  function Present(existing: Option<Contexts>): Contexts {
    existing.GetOr(map[])
  }

  lemma PatchAt(tags: seq<Tag>, existing: Option<Contexts>, k: string)
    ensures var patch := ContextsPatch(tags, existing);
            && (k in patch <==> k in Present(existing) || k in TagMap(tags))
            && (k in TagMap(tags) ==> patch[k] == Payload(TagMap(tags)[k], false))
            && (k in patch && k !in TagMap(tags) ==> patch[k].delete)
  {
  }

  lemma ReplacedAt(tags: seq<Tag>, existing: Option<Contexts>, k: string)
    ensures var after := ApplyPatch(Present(existing), ContextsPatch(tags, existing));
            && (k in after <==> k in TagMap(tags))
            && (k in after ==> after[k] == TagMap(tags)[k])
  {
    PatchAt(tags, existing, k);
  }

  /** Applied to the contexts it was computed from, the patch replaces the whole tag map: no old
      key is left, every new key has the last value given for it. */
  lemma PatchReplaces(tags: seq<Tag>, existing: Option<Contexts>)
    ensures ApplyPatch(Present(existing), ContextsPatch(tags, existing)) == TagMap(tags)
  {
    var after := ApplyPatch(Present(existing), ContextsPatch(tags, existing));
    forall k
      ensures k in after <==> k in TagMap(tags)
      ensures k in TagMap(tags) ==> after[k] == TagMap(tags)[k]
    {
      ReplacedAt(tags, existing, k);
    }
  }

  /** Applied to other contexts it does not: a key that appeared in the meantime survives. This is
      why the update is conditional. */
  lemma StalePatchKeepsNewKey(tags: seq<Tag>, existing: Option<Contexts>, k: string, v: string, now: Contexts)
    requires k !in Present(existing) && k !in TagMap(tags) && k in now && now[k] == v
    requires ContextsPatch(tags, existing) != map[]
    ensures var after := ApplyPatch(now, ContextsPatch(tags, existing));
            k in after && after[k] == v && after != TagMap(tags)
  {
  }

  // Reading tags back

  /** The tags a Get may answer with: each non-empty key of the contexts once, in some order. */
  ghost predicate IsListing(tags: seq<Tag>, contexts: Contexts) {
    && (forall i, j :: 0 <= i < j < |tags| ==> tags[i].key != tags[j].key)
    && (forall t <- tags :: t.key != "" && t.key in contexts && contexts[t.key] == t.value)
    && (forall k <- contexts :: k != "" ==> Tag(k, contexts[k]) in tags)
  }

  /** `TranslateGCSContextsToS3Tagging`. */
  method TranslateGcsContextsToS3Tagging(contexts: Option<Contexts>) returns (tags: seq<Tag>)
    ensures IsListing(tags, Present(contexts))
  {
    tags := [];
    if contexts.None? {
      return;
    }
    var m := contexts.value;
    var remaining := m.Keys;
    while remaining != {}
      invariant remaining <= m.Keys
      invariant forall t <- tags :: t.key !in remaining
      invariant IsListing(tags, map k | k in m && k !in remaining :: m[k])
    {
      var k :| k in remaining;
      ghost var seen := map k | k in m && k !in remaining :: m[k];
      remaining := remaining - {k};
      ghost var seen' := map k | k in m && k !in remaining :: m[k];
      assert seen' == seen[k := m[k]];
      if k != "" {
        ghost var before := tags;
        tags := tags + [Tag(k, m[k])];
        assert forall t :: t in tags <==> t in before || t == Tag(k, m[k]);
      }
    }
    assert m == map k | k in m && k !in remaining :: m[k];
  }

  /** Any listing, read as a tag set, is the contexts without the empty key. */
  lemma ListingTagMap(tags: seq<Tag>, contexts: Contexts)
    requires IsListing(tags, contexts)
    ensures TagMap(tags) == contexts - {""}
  {
    forall k | k in TagMap(tags)
      ensures k in contexts - {""} && contexts[k] == TagMap(tags)[k]
    {
      TagMapKeys(tags, k);
      var t :| t in tags && t.key == k;
      var i :| 0 <= i < |tags| && tags[i] == t;
      LastValueCounts(tags, i);
    }
    forall k | k in contexts - {""}
      ensures k in TagMap(tags)
    {
      assert Tag(k, contexts[k]) in tags;
      TagMapKeys(tags, k);
    }
  }

  /** Put then get: whatever contexts the object had, reading back after the put yields each
      non-empty key of the tag set once, with the last value given for it, and nothing else. Only
      a tag with an empty key is lost. */
  lemma {:induction false} PutThenGet(tags: seq<Tag>, existing: Option<Contexts>, answer: seq<Tag>)
    requires IsListing(answer, ApplyPatch(Present(existing), ContextsPatch(tags, existing)))
    ensures forall i, j :: 0 <= i < j < |answer| ==> answer[i].key != answer[j].key
    ensures TagMap(answer) == TagMap(tags) - {""}
  {
    PatchReplaces(tags, existing);
    ListingTagMap(answer, TagMap(tags));
  }
}
