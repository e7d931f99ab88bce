/** The S3 lifecycle document after XML decoding (pkg/translate/s3_lifecycle.go) and the two
    shapes it is translated to: the GCS SDK structs and the JSON structs of the older translator.
    Pointers are `Option`; Go's 64-bit `int` and `int64` are `int`, since the translators only
    copy them and compare them with zero. */
module LifecycleModel {
  import opened Wrappers
  import opened CivilDate

  // S3

  datatype AndOperator = AndOperator(
    prefix: Option<string>,
    tags: seq<Tag>,
    sizeGreaterThan: Option<int>,
    sizeLessThan: Option<int>)

  datatype Filter = Filter(
    prefix: Option<string>,
    tag: Option<Tag>,
    and: Option<AndOperator>,
    sizeGreaterThan: Option<int>,
    sizeLessThan: Option<int>)

  datatype Transition = Transition(days: Option<int>, date: Option<string>, storageClass: string)

  datatype Expiration = Expiration(
    days: Option<int>,
    date: Option<string>,
    expiredObjectDeleteMarker: Option<bool>)

  datatype NoncurrentTransition = NoncurrentTransition(noncurrentDays: Option<int>, storageClass: string)

  datatype NoncurrentExpiration = NoncurrentExpiration(noncurrentDays: Option<int>)

  datatype AbortUpload = AbortUpload(daysAfterInitiation: Option<int>)

  datatype Rule = Rule(
    id: string,
    priority: int,
    filter: Option<Filter>,
    status: string,
    transitions: seq<Transition>,
    expiration: Option<Expiration>,
    noncurrentTransitions: seq<NoncurrentTransition>,
    noncurrentExpiration: Option<NoncurrentExpiration>,
    abortUpload: Option<AbortUpload>)

  const ENABLED := "Enabled"

  // GCS SDK

  datatype Liveness = LiveAndArchived | Live | Archived

  /** `storage.LifecycleCondition`: zero, empty and `ZERO_TIME` mean "no condition". */
  datatype Condition = Condition(
    ageInDays: int,
    createdBefore: Instant,
    liveness: Liveness,
    matchesPrefix: seq<string>,
    matchesSuffix: seq<string>,
    matchesStorageClasses: seq<string>,
    numNewerVersions: int)

  const NO_CONDITION := Condition(0, ZERO_TIME, LiveAndArchived, [], [], [], 0)

  datatype GcsRule = GcsRule(action: string, storageClass: string, condition: Condition)

  const DELETE := "Delete"
  const SET_STORAGE_CLASS := "SetStorageClass"
  const ABORT_UPLOAD := "AbortIncompleteMultipartUpload"

  // GCS JSON

  datatype JsonCondition = JsonCondition(
    age: Option<int>,
    createdBefore: Option<string>,
    isLive: Option<bool>,
    matchesStorageClass: seq<string>,
    matchesPrefix: seq<string>,
    matchesSuffix: seq<string>,
    numNewerVersions: Option<int>)

  const NO_JSON_CONDITION := JsonCondition(None, None, None, [], [], [], None)

  datatype JsonRule = JsonRule(action: string, storageClass: string, condition: JsonCondition)

  // Errors

  datatype LifecycleError =
    | SizeFilter
    | TagFilter
    | SizeFilterInAnd
    | TagFilterInAnd
    | InvalidExpirationDate(date: string)
    | InvalidTransitionDate(date: string)

  /** A condition the translators fill in through a pointer. */
  class ConditionCell<C> {
    var value: C

    constructor (value: C)
      ensures this.value == value
    {
      this.value := value;
    }
  }
}
