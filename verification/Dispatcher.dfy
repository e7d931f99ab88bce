/** The request dispatcher of `handleS3Request` (main.go) after the credential gate, and the
    endpoint label the metrics middleware gives the same request (`classifyEndpoint`). */
module Dispatcher {
  import opened Wrappers
  import opened Text
  import opened QueryScan

  datatype Family = Lifecycle | Cors | Logging | Website | Tagging

  const FAMILIES: seq<Family> := [Lifecycle, Cors, Logging, Website, Tagging]

  /** The query key of a control-plane family; it is its feature name and its label as well. */
  function Key(f: Family): string {
    match f
    case Lifecycle => "lifecycle"
    case Cors => "cors"
    case Logging => "logging"
    case Website => "website"
    case Tagging => "tagging"
  }

  datatype Feature = Control(family: Family) | RestoreObject | CopyObject | MultipartUpload | DeleteObjects

  /** Whether a feature is enabled. */
  type Flags = Feature -> bool

  datatype Request = Request(verb: string, storageClass: string, contentEncoding: string, copySource: string)

  /** Whether the parsed query has a parameter of this name, up to case. */
  type Params = string -> bool

  datatype Outcome =
    | InvalidStorageClass
    | ChunkedRejected
    | Handled(family: Family)    // the Put, Get or Delete handler of the family, by verb
    | Restored                   // the restore handler
    | NotImplemented
    | Disabled(feature: Feature)
    | ForwardedToRead
    | ForwardedToWrite

  const KNOWN_CLASSES := {"STANDARD", "REDUCED_REDUNDANCY", "STANDARD_IA", "ONEZONE_IA", "GLACIER_IR", "GLACIER",
                          "DEEP_ARCHIVE", "INTELLIGENT_TIERING"}

  predicate ControlVerb(verb: string) {
    verb == "PUT" || verb == "GET" || verb == "DELETE"
  }

  // The handler

  /** The counter of rejections by feature. */
  class Rejections {
    var count: map<Feature, nat>

    function Of(f: Feature): nat
      reads this
    {
      if f in count then count[f] else 0
    }

    // ensureFeatureEnabled
    method EnsureEnabled(flags: Flags, f: Feature) returns (ok: bool)
      modifies this
      ensures ok == flags(f)
      ensures count == if ok then old(count) else old(count)[f := old(Of(f)) + 1]
    {
      ok := flags(f);
      if !ok {
        count := count[f := Of(f) + 1];
      }
    }
  }

  /** One control-plane block: None when the request falls through. */
  function Block(flags: Flags, r: Request, has: Params, f: Family): Option<Outcome> {
    if !has(Key(f)) then None
    else if !flags(Control(f)) then Some(Disabled(Control(f)))
    else if ControlVerb(r.verb) then Some(Handled(f))
    else None
  }

  function Blocks(flags: Flags, r: Request, has: Params, fs: seq<Family>): Option<Outcome> {
    if fs == [] then None
    else
      var o := Block(flags, r, has, fs[0]);
      if o.Some? then o else Blocks(flags, r, has, fs[1..])
  }

  function DataPlane(flags: Flags, r: Request, has: Params): Outcome {
    if has("restore") then
      if !flags(RestoreObject) then Disabled(RestoreObject) else if r.verb == "POST" then Restored else NotImplemented
    else if r.verb == "PUT" && r.copySource != "" && !flags(CopyObject) then Disabled(CopyObject)
    else if (has("uploads") || has("uploadId") || has("partNumber")) && !flags(MultipartUpload) then Disabled(MultipartUpload)
    else if r.verb == "POST" && has("delete") && !flags(DeleteObjects) then Disabled(DeleteObjects)
    else if r.verb == "GET" || r.verb == "HEAD" then ForwardedToRead
    else ForwardedToWrite
  }

  function Dispatch(flags: Flags, r: Request, has: Params): Outcome {
    if r.storageClass != "" && r.storageClass !in KNOWN_CLASSES then InvalidStorageClass
    else if Index(r.contentEncoding, "aws-chunked") >= 0 then ChunkedRejected
    else
      match Blocks(flags, r, has, FAMILIES)
      case Some(o) => o
      case None => DataPlane(flags, r, has)
  }

  lemma BlocksStep(flags: Flags, r: Request, has: Params, fs: seq<Family>, i: nat)
    requires i < |fs|
    ensures var o := Block(flags, r, has, fs[i]);
            Blocks(flags, r, has, fs[i..]) == if o.Some? then o else Blocks(flags, r, has, fs[i + 1..])
  {
    assert fs[i..][0] == fs[i] && fs[i..][1..] == fs[i + 1..];
  }

  // The five control-plane blocks, one after the other
  method ControlPlane(flags: Flags, r: Request, has: Params, rejections: Rejections) returns (o: Option<Outcome>)
    modifies rejections
    ensures o == Blocks(flags, r, has, FAMILIES)
    ensures rejections.count == if o.Some? && o.value.Disabled?
                                then old(rejections.count)[o.value.feature := old(rejections.Of(o.value.feature)) + 1]
                                else old(rejections.count)
  {
    ghost var all := Blocks(flags, r, has, FAMILIES);
    assert FAMILIES[0..] == FAMILIES;
    for i := 0 to |FAMILIES|
      invariant rejections.count == old(rejections.count)
      invariant Blocks(flags, r, has, FAMILIES[i..]) == all
    {
      var f := FAMILIES[i];
      BlocksStep(flags, r, has, FAMILIES, i);
      if has(Key(f)) {
        var ok := rejections.EnsureEnabled(flags, Control(f));
        if !ok {
          return Some(Disabled(Control(f)));
        }
        if ControlVerb(r.verb) {
          return Some(Handled(f));
        }
      }
    }
    return None;
  }

  // The rest: restore, the data-plane toggles and the choice of proxy
  method ServeData(flags: Flags, r: Request, has: Params, rejections: Rejections) returns (o: Outcome)
    modifies rejections
    ensures o == DataPlane(flags, r, has)
    ensures rejections.count == if o.Disabled? then old(rejections.count)[o.feature := old(rejections.Of(o.feature)) + 1]
                                else old(rejections.count)
  {
    if has("restore") {
      var ok := rejections.EnsureEnabled(flags, RestoreObject);
      if !ok {
        return Disabled(RestoreObject);
      }
      if r.verb == "POST" {
        return Restored;
      }
      return NotImplemented;
    }
    if r.verb == "PUT" && r.copySource != "" {
      var ok := rejections.EnsureEnabled(flags, CopyObject);
      if !ok {
        return Disabled(CopyObject);
      }
    }
    if has("uploads") || has("uploadId") || has("partNumber") {
      var ok := rejections.EnsureEnabled(flags, MultipartUpload);
      if !ok {
        return Disabled(MultipartUpload);
      }
    }
    if r.verb == "POST" && has("delete") {
      var ok := rejections.EnsureEnabled(flags, DeleteObjects);
      if !ok {
        return Disabled(DeleteObjects);
      }
    }
    return if r.verb == "GET" || r.verb == "HEAD" then ForwardedToRead else ForwardedToWrite;
  }

  /** `handleS3Request` after the gate: the request is answered or forwarded once, and a rejection is
      counted exactly when a disabled feature is the reason. */
  method HandleS3Request(flags: Flags, r: Request, has: Params, rejections: Rejections) returns (o: Outcome)
    modifies rejections
    ensures o == Dispatch(flags, r, has)
    ensures rejections.count == if o.Disabled? then old(rejections.count)[o.feature := old(rejections.Of(o.feature)) + 1]
                                else old(rejections.count)
  {
    if r.storageClass != "" && r.storageClass !in KNOWN_CLASSES {
      return InvalidStorageClass;
    }
    if Index(r.contentEncoding, "aws-chunked") >= 0 {
      return ChunkedRejected;
    }
    var answered := ControlPlane(flags, r, has, rejections);
    if answered.Some? {
      return answered.value;
    }
    o := ServeData(flags, r, has, rejections);
  }

  // What the dispatcher guarantees

  /** No storage class, or one of the eight that are translated, and no flexible checksums. */
  predicate PassesHeaderChecks(r: Request) {
    && r.storageClass in {"", "STANDARD", "REDUCED_REDUNDANCY", "STANDARD_IA", "ONEZONE_IA", "GLACIER_IR", "GLACIER",
                          "DEEP_ARCHIVE", "INTELLIGENT_TIERING"}
    && forall k :: 0 <= k <= |r.contentEncoding| ==> !("aws-chunked" <= r.contentEncoding[k..])
  }

  /** A request uses a feature, whatever else it carries. */
  predicate Uses(f: Feature, r: Request, has: Params) {
    match f
    case Control(family) => has(Key(family))
    case RestoreObject => has("restore")
    case CopyObject => r.verb == "PUT" && r.copySource != ""
    case MultipartUpload => has("uploads") || has("uploadId") || has("partNumber")
    case DeleteObjects => r.verb == "POST" && has("delete")
  }

  predicate Forwarded(o: Outcome) {
    o.ForwardedToRead? || o.ForwardedToWrite?
  }

  lemma {:induction false} BlocksFallThrough(flags: Flags, r: Request, has: Params, fs: seq<Family>)
    ensures Blocks(flags, r, has, fs).None?
            <==> forall f <- fs :: has(Key(f)) ==> flags(Control(f)) && !ControlVerb(r.verb)
  {
    if fs != [] {
      BlocksFallThrough(flags, r, has, fs[1..]);
      assert forall f :: f in fs <==> f == fs[0] || f in fs[1..];
    }
  }

  /** The block that decides, if one does: the first that does not fall through. */
  lemma {:induction false} DecidingBlock(flags: Flags, r: Request, has: Params, fs: seq<Family>) returns (k: nat)
    requires Blocks(flags, r, has, fs).Some?
    ensures k < |fs| && Block(flags, r, has, fs[k]) == Blocks(flags, r, has, fs)
    ensures forall i :: 0 <= i < k ==> Block(flags, r, has, fs[i]).None?
  {
    if Block(flags, r, has, fs[0]).Some? {
      k := 0;
    } else {
      var j := DecidingBlock(flags, r, has, fs[1..]);
      k := j + 1;
      assert forall i :: 1 <= i < k ==> fs[i] == fs[1..][i - 1];
    }
  }

  lemma FamiliesComplete(f: Family)
    ensures f in FAMILIES
  {
  }

  lemma DataPlaneForwards(flags: Flags, r: Request, has: Params)
    ensures Forwarded(DataPlane(flags, r, has)) <==>
              !has("restore") && forall f: Feature :: !f.Control? && Uses(f, r, has) ==> flags(f)
  {
  }

  lemma ControlPlanePassed(flags: Flags, r: Request, has: Params)
    ensures Blocks(flags, r, has, FAMILIES).None? <==>
              (forall f: Family :: Uses(Control(f), r, has) ==> flags(Control(f)))
              && (forall f: Family :: has(Key(f)) ==> !ControlVerb(r.verb))
    ensures Blocks(flags, r, has, FAMILIES).Some? ==> !Forwarded(Blocks(flags, r, has, FAMILIES).value)
  {
    BlocksFallThrough(flags, r, has, FAMILIES);
    forall f {
      FamiliesComplete(f);
    }
    if Blocks(flags, r, has, FAMILIES).Some? {
      var k := DecidingBlock(flags, r, has, FAMILIES);
    }
  }

  /** Forwarding, exactly: the headers are acceptable, every feature the request uses is on, it has
      no restore key, and control-plane keys come with other verbs than Put, Get and Delete only. */
  lemma ForwardedExactly(flags: Flags, r: Request, has: Params)
    ensures Forwarded(Dispatch(flags, r, has)) <==>
              && PassesHeaderChecks(r)
              && (forall f :: Uses(f, r, has) ==> flags(f))
              && !has("restore")
              && (forall f :: has(Key(f)) ==> r.verb !in {"PUT", "GET", "DELETE"})
    ensures Forwarded(Dispatch(flags, r, has)) ==>
              (Dispatch(flags, r, has).ForwardedToRead? <==> r.verb in {"GET", "HEAD"})
  {
    ControlPlanePassed(flags, r, has);
    DataPlaneForwards(flags, r, has);
    assert (forall f: Feature :: Uses(f, r, has) ==> flags(f)) <==>
           (forall f: Family :: Uses(Control(f), r, has) ==> flags(Control(f)))
           && (forall f: Feature :: !f.Control? && Uses(f, r, has) ==> flags(f)) by {
      assert forall f: Feature :: f.Control? ==> f == Control(f.family);
    }
  }

  /** A restore key that no control-plane block takes is always answered here, never by forwarding:
      the restore handler runs exactly for a Post with the feature on. */
  lemma RestoreAnswered(flags: Flags, r: Request, has: Params)
    requires PassesHeaderChecks(r) && has("restore")
    requires forall f: Family :: has(Key(f)) ==> flags(Control(f)) && !ControlVerb(r.verb)
    ensures Dispatch(flags, r, has) in {Restored, NotImplemented, Disabled(RestoreObject)}
    ensures Dispatch(flags, r, has) == Restored <==> r.verb == "POST" && flags(RestoreObject)
  {
    ControlPlanePassed(flags, r, has);
  }

  /** The first family whose key the request has. */
  function FirstPresent(has: Params, fs: seq<Family>): Option<Family> {
    if fs == [] then None else if has(Key(fs[0])) then Some(fs[0]) else FirstPresent(has, fs[1..])
  }

  predicate Distinct(fs: seq<Family>) {
    forall i, j :: 0 <= i < j < |fs| ==> fs[i] != fs[j]
  }

  lemma FamiliesDistinct()
    ensures Distinct(FAMILIES)
  {
  }

  lemma {:induction false} FirstPresentIn(has: Params, fs: seq<Family>)
    ensures FirstPresent(has, fs).Some? ==> FirstPresent(has, fs).value in fs
  {
    if fs != [] {
      FirstPresentIn(has, fs[1..]);
    }
  }

  lemma {:induction false} FirstPresentAt(has: Params, fs: seq<Family>, k: nat)
    requires k < |fs| && Distinct(fs)
    ensures FirstPresent(has, fs) == Some(fs[k]) <==> has(Key(fs[k])) && forall i :: 0 <= i < k ==> !has(Key(fs[i]))
  {
    if k == 0 {
      FirstPresentIn(has, fs[1..]);
      assert fs[0] !in fs[1..];
    } else if has(Key(fs[0])) {
      assert fs[0] != fs[k];
    } else {
      FirstPresentAt(has, fs[1..], k - 1);
      assert forall i :: 1 <= i < k ==> fs[i] == fs[1..][i - 1];
      assert forall i :: 0 <= i < k - 1 ==> fs[1..][i] == fs[i + 1];
    }
  }

  /** For a Put, Get or Delete the first key present decides; for other verbs nothing is handled. */
  lemma {:induction false} FirstPresentDecides(flags: Flags, r: Request, has: Params, fs: seq<Family>)
    ensures ControlVerb(r.verb) ==>
              Blocks(flags, r, has, fs) ==
              match FirstPresent(has, fs)
              case None => None
              case Some(f) => Some(if flags(Control(f)) then Handled(f) else Disabled(Control(f)))
    ensures !ControlVerb(r.verb) && Blocks(flags, r, has, fs).Some? ==> Blocks(flags, r, has, fs).value.Disabled?
  {
    if fs != [] {
      FirstPresentDecides(flags, r, has, fs[1..]);
    }
  }

  /** A family's handler runs exactly for a Put, Get or Delete that carries its key, with its flag
      on, and without the key of an earlier family. */
  lemma HandledExactly(flags: Flags, r: Request, has: Params, k: nat)
    requires k < |FAMILIES|
    ensures Dispatch(flags, r, has) == Handled(FAMILIES[k]) <==>
              && PassesHeaderChecks(r) && r.verb in {"PUT", "GET", "DELETE"}
              && has(Key(FAMILIES[k])) && flags(Control(FAMILIES[k]))
              && forall i :: 0 <= i < k ==> !has(Key(FAMILIES[i]))
  {
    FirstPresentDecides(flags, r, has, FAMILIES);
    FamiliesDistinct();
    FirstPresentAt(has, FAMILIES, k);
  }

  /** An unknown storage class is refused before everything else, and flexible checksums next. */
  lemma HeaderRejections(flags: Flags, r: Request, has: Params)
    ensures var known := r.storageClass in {"", "STANDARD", "REDUCED_REDUNDANCY", "STANDARD_IA", "ONEZONE_IA", "GLACIER_IR",
                                            "GLACIER", "DEEP_ARCHIVE", "INTELLIGENT_TIERING"};
            && (Dispatch(flags, r, has) == InvalidStorageClass <==> !known)
            && (Dispatch(flags, r, has) == ChunkedRejected <==>
                  known && exists k :: 0 <= k <= |r.contentEncoding| && "aws-chunked" <= r.contentEncoding[k..])
  {
    FirstPresentDecides(flags, r, has, FAMILIES);
  }

  /** By name: a Put, Get or Delete is for the first of these keys that it has. */
  lemma HandledByName(flags: Flags, r: Request, has: Params)
    requires PassesHeaderChecks(r) && r.verb in {"PUT", "GET", "DELETE"}
    ensures var o := Dispatch(flags, r, has);
            && (o == Handled(Lifecycle) <==> flags(Control(Lifecycle)) && has("lifecycle"))
            && (o == Handled(Cors) <==> flags(Control(Cors)) && has("cors") && !has("lifecycle"))
            && (o == Handled(Logging) <==> flags(Control(Logging)) && has("logging") && !has("cors") && !has("lifecycle"))
            && (o == Handled(Website) <==>
                  flags(Control(Website)) && has("website") && !has("logging") && !has("cors") && !has("lifecycle"))
            && (o == Handled(Tagging) <==>
                  flags(Control(Tagging)) && has("tagging") && !has("website") && !has("logging") && !has("cors") && !has("lifecycle"))
  {
    FirstPresentDecides(flags, r, has, FAMILIES);
    FirstByName(has);
  }

  lemma FirstByName(has: Params)
    ensures FirstPresent(has, FAMILIES) ==
            if has("lifecycle") then Some(Lifecycle)
            else if has("cors") then Some(Cors)
            else if has("logging") then Some(Logging)
            else if has("website") then Some(Website)
            else if has("tagging") then Some(Tagging)
            else None
  {
    var after := [Website, Tagging];
    assert FAMILIES[1..][1..] == [Logging] + after && ([Logging] + after)[1..] == after && after[1..] == [Tagging];
  }

  /** A control-plane request never reaches the storage behind the proxy. */
  lemma ControlPlaneStaysHere(flags: Flags, r: Request, has: Params, f: Family)
    requires r.verb in {"PUT", "GET", "DELETE"} && has(Key(f))
    ensures !Forwarded(Dispatch(flags, r, has))
  {
    ForwardedExactly(flags, r, has);
  }

  /** A refusal names a feature the request does use and the configuration does turn off. */
  lemma DisabledIsDeserved(flags: Flags, r: Request, has: Params, f: Feature)
    requires Dispatch(flags, r, has) == Disabled(f)
    ensures Uses(f, r, has) && !flags(f)
  {
    if Blocks(flags, r, has, FAMILIES).Some? {
      var k := DecidingBlock(flags, r, has, FAMILIES);
    }
  }

  // The label

  predicate IsSlashByte(c: char) {
    c == '/'
  }

  /** `strings.Trim(path, "/")`. */
  function TrimSlashes(s: string): string {
    Trim(s, IsSlashByte)
  }

  predicate Reserved(path: string) {
    TrimSlashes(path) in {"health", "readyz", "metrics"}
  }

  /** The names that are literally in the query. */
  ghost function Literal(query: string): Params {
    key => HasName(Split(query, '&'), key)
  }

  /** The first family whose key is literally in the query. */
  ghost function FirstFamily(query: string): Option<Family> {
    FirstPresent(Literal(query), FAMILIES)
  }

  function PathLabel(verb: string, trimmed: string): string {
    if verb == "PUT" then (if '/' in trimmed then "put_object" else "other")
    else if verb == "GET" then (if '/' in trimmed then "get_object" else if trimmed != "" then "list_objects" else "list")
    else if verb == "DELETE" then "delete_object"
    else if verb == "HEAD" then "head_object"
    else "other"
  }

  ghost function Label(verb: string, path: string, query: string): string {
    if Reserved(path) then "other"
    else match FirstFamily(query)
         case Some(f) => Key(f)
         case None =>
           if verb == "POST" && HasName(Split(query, '&'), "delete") then "delete_objects"
           else if verb == "POST" && HasName(Split(query, '&'), "restore") then "restore_object"
           else PathLabel(verb, TrimSlashes(path))
  }

  predicate OnlySlashes(s: string) {
    forall i :: 0 <= i < |s| ==> s[i] == '/'
  }

  lemma TrimSlashesTrims(s: string) returns (before: string, after: string)
    ensures s == before + TrimSlashes(s) + after && OnlySlashes(before) && OnlySlashes(after)
    ensures var t := TrimSlashes(s); t != "" ==> t[0] != '/' && t[|t| - 1] != '/'
  {
    before, after := TrimTrims(s, IsSlashByte);
  }

  /** A path with a bucket: something besides slashes. */
  ghost predicate HasBucket(path: string) {
    exists i :: 0 <= i < |path| && path[i] != '/'
  }

  /** A path with a key: a slash with something besides slashes on both sides. */
  ghost predicate HasKey(path: string) {
    exists i, j, k :: KeyAt(path, i, j, k)
  }

  predicate KeyAt(path: string, i: int, j: int, k: int) {
    0 <= i < j < k < |path| && path[i] != '/' && path[j] == '/' && path[k] != '/'
  }

  /** What is no slash lies in the trimmed part. */
  lemma Inside(before: string, t: string, after: string, i: nat)
    requires OnlySlashes(before) && OnlySlashes(after)
    requires i < |before + t + after| && (before + t + after)[i] != '/'
    ensures |before| <= i < |before| + |t| && t[i - |before|] == (before + t + after)[i]
  {
    assert forall j :: 0 <= j < |after| ==> (before + t + after)[|before| + |t| + j] == after[j];
  }

  lemma PartAt(before: string, t: string, after: string, i: nat)
    requires i < |t|
    ensures (before + t + after)[|before| + i] == t[i]
  {
  }

  lemma TrimmedKey(path: string, before: string, t: string, after: string)
    requires path == before + t + after && OnlySlashes(before) && OnlySlashes(after)
    requires t != "" ==> t[0] != '/' && t[|t| - 1] != '/'
    ensures '/' in t <==> HasKey(path)
  {
    var n := |before|;
    if j: nat :| j < |t| && t[j] == '/' {
      PartAt(before, t, after, 0);
      PartAt(before, t, after, j);
      PartAt(before, t, after, |t| - 1);
      assert KeyAt(path, n, n + j, n + |t| - 1);
    }
    if i, j, k :| KeyAt(path, i, j, k) {
      Inside(before, t, after, i);
      Inside(before, t, after, k);
      PartAt(before, t, after, j - n);
      assert t[j - n] == '/';
    }
  }

  lemma TrimmedParts(path: string)
    ensures TrimSlashes(path) != "" <==> HasBucket(path)
    ensures '/' in TrimSlashes(path) <==> HasKey(path)
  {
    var before, after := TrimSlashesTrims(path);
    var t := TrimSlashes(path);
    TrimmedKey(path, before, t, after);
    if t != "" {
      PartAt(before, t, after, 0);
      assert path[|before|] != '/';
    }
    if i :| 0 <= i < |path| && path[i] != '/' {
      Inside(before, t, after, i);
    }
  }

  /** The label of a request without query, by verb and by what its path has. */
  lemma PathLabels(verb: string, path: string)
    requires !Reserved(path)
    ensures var l := Label(verb, path, "");
            && (verb == "PUT" ==> l == if HasKey(path) then "put_object" else "other")
            && (verb == "GET" ==>
                  l == if HasKey(path) then "get_object" else if HasBucket(path) then "list_objects" else "list")
            && (verb == "DELETE" ==> l == "delete_object")
            && (verb == "HEAD" ==> l == "head_object")
            && (verb !in {"PUT", "GET", "DELETE", "HEAD"} ==> l == "other")
  {
    TrimmedParts(path);
    EmptyQueryHasNoFamily();
    EmptyQueryHasNoKey("delete");
    EmptyQueryHasNoKey("restore");
  }

  /** The three operational paths, with any slashes around them, are labelled as nothing else. */
  lemma ReservedPaths(before: string, name: string, after: string, verb: string, query: string)
    requires OnlySlashes(before) && OnlySlashes(after) && name in {"health", "readyz", "metrics"}
    ensures Label(verb, before + name + after, query) == "other"
  {
    TrimmedName(before, name, after);
  }

  lemma TrimmedName(before: string, name: string, after: string)
    requires OnlySlashes(before) && OnlySlashes(after) && name != "" && '/' !in name
    ensures TrimSlashes(before + name + after) == name
  {
    var path := before + name + after;
    var b, a := TrimSlashesTrims(path);
    var t := TrimSlashes(path);
    PartAt(before, name, after, 0);
    PartAt(before, name, after, |name| - 1);
    assert name[0] in name && name[|name| - 1] in name;
    Inside(b, t, a, |before|);
    Inside(b, t, a, |before| + |name| - 1);
    PartAt(b, t, a, 0);
    PartAt(b, t, a, |t| - 1);
    Inside(before, name, after, |b|);
    Inside(before, name, after, |b| + |t| - 1);
    assert t == path[|b|..|b| + |t|] && name == path[|before|..|before| + |name|];
  }

  /** A Post that names no family is labelled by the operation its query names. */
  lemma PostLabels(path: string, query: string)
    requires !Reserved(path) && forall f: Family :: !HasName(Split(query, '&'), Key(f))
    ensures HasName(Split(query, '&'), "delete") ==> Label("POST", path, query) == "delete_objects"
    ensures !HasName(Split(query, '&'), "delete") ==>
              Label("POST", path, query) == if HasName(Split(query, '&'), "restore") then "restore_object" else "other"
  {
    NonePresent(Literal(query), FAMILIES);
  }

  /** `URL.RequestURI`: the escaped path, and the query if there is one. */
  function RequestUri(path: string, query: string): string {
    if query == "" then path else path + "?" + query
  }

  lemma EmptyQueryHasNoKey(key: string)
    requires key != ""
    ensures !HasName(Split("", '&'), key)
  {
  }

  lemma {:induction false} NonePresent(has: Params, fs: seq<Family>)
    requires forall f: Family :: !has(Key(f))
    ensures FirstPresent(has, fs).None?
  {
    if fs != [] {
      NonePresent(has, fs[1..]);
    }
  }

  lemma EmptyQueryHasNoFamily()
    ensures FirstFamily("").None?
  {
    forall f: Family {
      EmptyQueryHasNoKey(Key(f));
    }
    NonePresent(Literal(""), FAMILIES);
  }

  // Path and query of a request URI
  method CutUri(path: string, query: string) returns (p: string, q: string)
    requires '?' !in path
    ensures p == path && q == query
  {
    var rawPath := RequestUri(path, query);
    p, q := rawPath, "";
    var i := IndexByte(rawPath, '?');
    if query == "" {
      NoIndex(path, '?');
    } else {
      FirstIndex(rawPath, '?', |path|);
    }
    if i >= 0 {
      p, q := rawPath[..i], rawPath[i + 1..];
    }
  }

  // The label by verb and path alone
  method ClassifyPath(verb: string, trimmed: string) returns (l: string)
    ensures l == PathLabel(verb, trimmed)
  {
    var hasBucket, hasKey := false, false;
    if trimmed != "" {
      hasBucket := true;
      if IndexByte(trimmed, '/') >= 0 {
        hasKey := true;
      }
    }
    NoIndex(trimmed, '/');
    if verb == "PUT" {
      return if hasBucket && hasKey then "put_object" else "other";
    } else if verb == "GET" {
      return if hasKey then "get_object" else if hasBucket then "list_objects" else "list";
    } else if verb == "DELETE" {
      return "delete_object";
    } else if verb == "HEAD" {
      return "head_object";
    }
    return "other";
  }

  lemma FirstPresentStep(has: Params, fs: seq<Family>, k: nat)
    requires k < |fs|
    ensures FirstPresent(has, fs[k..]) == if has(Key(fs[k])) then Some(fs[k]) else FirstPresent(has, fs[k + 1..])
  {
    assert fs[k..][0] == fs[k] && fs[k..][1..] == fs[k + 1..];
  }

  // The loop over controlPlaneQueryKeys
  method ClassifyControl(query: string) returns (family: Option<Family>)
    ensures family == FirstFamily(query)
  {
    assert FAMILIES[0..] == FAMILIES;
    for k := 0 to |FAMILIES|
      invariant FirstPresent(Literal(query), FAMILIES[k..]) == FirstFamily(query)
    {
      FirstPresentStep(Literal(query), FAMILIES, k);
      KeyIsPlain(FAMILIES[k]);
      var found := HasQueryKey(query, Key(FAMILIES[k]));
      if found {
        return Some(FAMILIES[k]);
      }
    }
    return None;
  }

  /** `classifyEndpoint`. */
  method ClassifyEndpoint(verb: string, path: string, query: string) returns (l: string)
    requires '?' !in path
    ensures l == Label(verb, path, query)
  {
    var pathPart, queryPart := CutUri(path, query);
    var trimmed := TrimSlashes(pathPart);
    if trimmed == "health" || trimmed == "readyz" || trimmed == "metrics" {
      return "other";
    }
    if queryPart != "" {
      var family := ClassifyControl(queryPart);
      if family.Some? {
        return Key(family.value);
      }
      var delete := HasQueryKey(queryPart, "delete");
      if delete && verb == "POST" {
        return "delete_objects";
      }
      var restore := HasQueryKey(queryPart, "restore");
      if restore && verb == "POST" {
        return "restore_object";
      }
    } else {
      EmptyQueryHasNoFamily();
      EmptyQueryHasNoKey("delete");
      EmptyQueryHasNoKey("restore");
    }
    l := ClassifyPath(verb, trimmed);
  }

  // The parsed query

  predicate IsHex(c: char) {
    '0' <= c <= '9' || 'a' <= c <= 'f' || 'A' <= c <= 'F'
  }

  function HexValue(c: char): int
    requires IsHex(c)
  {
    if c <= '9' then c as int - '0' as int
    else if c <= 'F' then c as int - 'A' as int + 10
    else c as int - 'a' as int + 10
  }

  /** `url.QueryUnescape`. */
  function QueryUnescape(s: string): Option<string>
    decreases |s|
  {
    if s == "" then Some("")
    else if s[0] == '%' then
      if |s| < 3 || !IsHex(s[1]) || !IsHex(s[2]) then None
      else
        match QueryUnescape(s[3..])
        case Some(rest) => Some([(16 * HexValue(s[1]) + HexValue(s[2])) as char] + rest)
        case None => None
    else
      match QueryUnescape(s[1..])
      case Some(rest) => Some([if s[0] == '+' then ' ' else s[0]] + rest)
      case None => None
  }

  const UPPER_HEX := "0123456789ABCDEF"
  const LOWER_HEX := "0123456789abcdef"

  lemma HexDigits(n: int)
    requires 0 <= n < 16
    ensures IsHex(UPPER_HEX[n]) && HexValue(UPPER_HEX[n]) == n
    ensures IsHex(LOWER_HEX[n]) && HexValue(LOWER_HEX[n]) == n
  {
  }

  /** One character of a query as a client may write it: as it is, a plus for a space, or its code in
      hexadecimal digits of either case. */
  datatype Piece = AsIs(c: char) | Plus | Code(high: int, low: int, highUpper: bool, lowUpper: bool)

  predicate ValidPiece(p: Piece) {
    match p
    case AsIs(c) => c != '%' && c != '+'
    case Plus => true
    case Code(high, low, _, _) => 0 <= high < 16 && 0 <= low < 16
  }

  function HexDigit(n: int, upper: bool): char
    requires 0 <= n < 16
  {
    if upper then UPPER_HEX[n] else LOWER_HEX[n]
  }

  function Written(p: Piece): string
    requires ValidPiece(p)
  {
    match p
    case AsIs(c) => [c]
    case Plus => "+"
    case Code(high, low, highUpper, lowUpper) => ['%', HexDigit(high, highUpper), HexDigit(low, lowUpper)]
  }

  function Meant(p: Piece): char
    requires ValidPiece(p)
  {
    match p
    case AsIs(c) => c
    case Plus => ' '
    case Code(high, low, _, _) => (16 * high + low) as char
  }

  function WrittenAll(pieces: seq<Piece>): string
    requires forall p <- pieces :: ValidPiece(p)
  {
    if pieces == [] then "" else Written(pieces[0]) + WrittenAll(pieces[1..])
  }

  function MeantAll(pieces: seq<Piece>): string
    requires forall p <- pieces :: ValidPiece(p)
  {
    if pieces == [] then "" else [Meant(pieces[0])] + MeantAll(pieces[1..])
  }

  lemma UnescapeCode(a: char, b: char, rest: string)
    requires IsHex(a) && IsHex(b)
    ensures QueryUnescape(['%', a, b] + rest) ==
            match QueryUnescape(rest) case Some(t) => Some([(16 * HexValue(a) + HexValue(b)) as char] + t) case None => None
  {
    assert (['%', a, b] + rest)[3..] == rest;
  }

  lemma UnescapeChar(c: char, rest: string)
    requires c != '%'
    ensures QueryUnescape([c] + rest) ==
            match QueryUnescape(rest) case Some(t) => Some([if c == '+' then ' ' else c] + t) case None => None
  {
    assert ([c] + rest)[1..] == rest;
  }

  lemma UnescapeOne(p: Piece, rest: string)
    requires ValidPiece(p)
    ensures QueryUnescape(Written(p) + rest) ==
            match QueryUnescape(rest) case Some(t) => Some([Meant(p)] + t) case None => None
  {
    match p
    case AsIs(c) => UnescapeChar(c, rest);
    case Plus => UnescapeChar('+', rest);
    case Code(high, low, highUpper, lowUpper) =>
      HexDigits(high);
      HexDigits(low);
      UnescapeCode(HexDigit(high, highUpper), HexDigit(low, lowUpper), rest);
  }

  /** Whatever way it is written, a query is read as it was meant. */
  lemma {:induction false} UnescapeReads(pieces: seq<Piece>)
    requires forall p <- pieces :: ValidPiece(p)
    ensures QueryUnescape(WrittenAll(pieces)) == Some(MeantAll(pieces))
  {
    if pieces != [] {
      UnescapeReads(pieces[1..]);
      UnescapeOne(pieces[0], WrittenAll(pieces[1..]));
    }
  }

  /** A percent sign at `i` has its two hexadecimal digits. */
  predicate EscapedAt(s: string, i: nat)
    requires i < |s|
  {
    s[i] == '%' ==>
      i + 2 < |s| && forall j :: i < j <= i + 2 ==> '0' <= s[j] <= '9' || 'a' <= s[j] <= 'f' || 'A' <= s[j] <= 'F'
  }

  ghost predicate WellEscaped(s: string) {
    forall i :: 0 <= i < |s| ==> EscapedAt(s, i)
  }

  lemma EscapedHere(s: string)
    requires s != "" && s[0] == '%'
    ensures EscapedAt(s, 0) <==> |s| >= 3 && IsHex(s[1]) && IsHex(s[2])
    ensures EscapedAt(s, 0) ==> EscapedAt(s, 1) && EscapedAt(s, 2)
  {
  }

  lemma EscapedBehind(s: string, n: nat, i: nat)
    requires n + i < |s|
    ensures EscapedAt(s[n..], i) <==> EscapedAt(s, n + i)
  {
  }

  lemma WellEscapedStep(s: string, n: nat)
    requires 0 < n <= |s| && forall i :: 0 <= i < n ==> EscapedAt(s, i)
    ensures WellEscaped(s) <==> WellEscaped(s[n..])
  {
    forall i: nat | n + i < |s| {
      EscapedBehind(s, n, i);
    }
    assert forall i :: n <= i < |s| ==> (EscapedAt(s, i) <==> EscapedAt(s[n..], i - n));
  }

  /** A string is rejected exactly for a percent sign without its two digits. */
  lemma {:induction false} UnescapeAccepts(s: string)
    ensures QueryUnescape(s).Some? <==> WellEscaped(s)
    decreases |s|
  {
    if s == "" {
    } else if s[0] != '%' {
      WellEscapedStep(s, 1);
      UnescapeAccepts(s[1..]);
    } else {
      EscapedHere(s);
      if EscapedAt(s, 0) {
        WellEscapedStep(s, 3);
        UnescapeAccepts(s[3..]);
      }
    }
  }

  /** The part of a segment after its first '='. */
  function ValuePart(seg: string): string {
    var i := IndexByte(seg, '=');
    if i < 0 then "" else seg[i + 1..]
  }

  /** The parameter name `url.ParseQuery` finds in a segment, if it keeps the segment. */
  function ParsedName(seg: string): Option<string> {
    if seg == "" || ';' in seg || QueryUnescape(ValuePart(seg)).None? then None
    else QueryUnescape(Name(seg))
  }

  /** A parameter is found under the name that was meant, whatever its value means; but not if there
      is a semicolon in it, or a percent sign without its digits. */
  lemma ParameterParsed(name: seq<Piece>, value: string)
    requires forall p <- name :: ValidPiece(p)
    requires '=' !in WrittenAll(name)
    ensures var seg := WrittenAll(name) + "=" + value;
            ParsedName(seg) == if ';' !in seg && WellEscaped(value) then Some(MeantAll(name)) else None
  {
    UnescapeReads(name);
    UnescapeAccepts(value);
    var seg := WrittenAll(name) + "=" + value;
    IndexOfFirst(WrittenAll(name), '=', value);
    assert seg[..|WrittenAll(name)|] == WrittenAll(name) && seg[|WrittenAll(name)| + 1..] == value;
  }

  ghost predicate ParsedIn(segs: seq<string>, key: string) {
    exists seg <- segs :: ParsedName(seg).Some? && EqualFold(ParsedName(seg).value, key)
  }

  /** `hasQueryParam` over `r.URL.Query()`. */
  ghost predicate HasParam(query: string, key: string) {
    ParsedIn(Split(query, '&'), key)
  }

  /** The family whose block decides: its handler runs, or its flag is off. */
  function SelectedFamily(o: Outcome): Option<Family> {
    match o
    case Handled(f) => Some(f)
    case Disabled(Control(f)) => Some(f)
    case _ => None
  }

  lemma SelectedIsFirst(flags: Flags, r: Request, has: Params)
    requires ControlVerb(r.verb) && PassesHeaderChecks(r)
    ensures SelectedFamily(Dispatch(flags, r, has)) == FirstPresent(has, FAMILIES)
  {
    FirstPresentDecides(flags, r, has, FAMILIES);
  }

  lemma LabelNamesFamily(verb: string, path: string, query: string, f: Family)
    requires !Reserved(path)
    ensures Label(verb, path, query) == Key(f) <==> FirstFamily(query) == Some(f)
  {
    KeysDistinct(f);
  }

  lemma KeysDistinct(f: Family)
    ensures forall g :: Key(f) == Key(g) ==> f == g
    ensures forall verb, trimmed :: PathLabel(verb, trimmed) != Key(f)
    ensures Key(f) != "delete_objects" && Key(f) != "restore_object"
  {
  }

  // When label and dispatch agree

  /** The key stands in the query as it is. */
  ghost predicate StandsIn(query: string, f: Family) {
    HasName(Split(query, '&'), Key(f))
  }

  /** The key stands in a segment that the parser drops, for a semicolon or a bad escape. */
  ghost predicate StandsDropped(query: string, f: Family) {
    exists seg <- Split(query, '&') :: Name(seg) == Key(f) && ParsedName(seg).None?
  }

  /** The families in order, up to the first that the parser finds, if it finds one: that one must
      stand in the query as it is, not only escaped or in other letters, and none before it may stand
      in a dropped segment. */
  ghost predicate ReadAlike(query: string, fs: seq<Family>) {
    fs != [] ==>
      if HasParam(query, Key(fs[0])) then StandsIn(query, fs[0])
      else !StandsDropped(query, fs[0]) && ReadAlike(query, fs[1..])
  }

  lemma {:induction false} UnescapePlain(s: string)
    requires '%' !in s && '+' !in s
    ensures QueryUnescape(s) == Some(s)
  {
    if s != "" {
      assert s[0] in s && forall c <- s[1..] :: c in s;
      UnescapePlain(s[1..]);
      assert s == [s[0]] + s[1..];
    }
  }

  /** A query of one parameter without value, and without anything to decode. */
  predicate Bare(query: string) {
    query != "" && '&' !in query && '=' !in query && '%' !in query && '+' !in query && ';' !in query
  }

  /** All the separators and escapes come before the letters. */
  lemma BareWord(s: string)
    requires s != "" && forall i :: 0 <= i < |s| ==> s[i] >= 'A'
    ensures Bare(s)
  {
  }

  lemma KeyIsLower(f: Family)
    ensures Key(f) != "" && forall i :: 0 <= i < |Key(f)| ==> 'a' <= Key(f)[i] <= 'z'
  {
  }

  lemma KeyIsPlain(f: Family)
    ensures Bare(Key(f))
  {
    KeyIsLower(f);
    BareWord(Key(f));
  }

  /** A key that stands in the query is found by the parser, unless it is dropped. */
  lemma StandsInIsParsed(query: string, f: Family)
    ensures StandsIn(query, f) ==> HasParam(query, Key(f)) || StandsDropped(query, f)
    ensures StandsDropped(query, f) ==> StandsIn(query, f)
  {
    KeyIsPlain(f);
    UnescapePlain(Key(f));
    if seg :| seg in Split(query, '&') && Name(seg) == Key(f) && ParsedName(seg).Some? {
      assert ParsedName(seg).value == Key(f);
    }
  }

  lemma {:induction false} FirstsEqual(query: string, has: Params, fs: seq<Family>)
    requires Distinct(fs)
    requires forall key :: has(key) <==> HasParam(query, key)
    ensures FirstPresent(Literal(query), fs) == FirstPresent(has, fs) <==> ReadAlike(query, fs)
  {
    if fs != [] {
      var f, rest := fs[0], fs[1..];
      assert f !in rest;
      FirstPresentIn(Literal(query), rest);
      FirstPresentIn(has, rest);
      StandsInIsParsed(query, f);
      FirstsEqual(query, has, rest);
    }
  }

  /** The dispatcher and the metrics: for a Put, Get or Delete on an ordinary path, the label is the
      key of a family exactly when the dispatcher selects that family, for all families, if and only
      if parser and literal scan read the query alike. */
  lemma LabelMatchesDispatch(flags: Flags, r: Request, has: Params, path: string, query: string)
    requires ControlVerb(r.verb) && PassesHeaderChecks(r) && !Reserved(path)
    requires forall key :: has(key) <==> HasParam(query, key)
    ensures (forall f :: Label(r.verb, path, query) == Key(f) <==> SelectedFamily(Dispatch(flags, r, has)) == Some(f))
            <==> ReadAlike(query, FAMILIES)
  {
    SelectedIsFirst(flags, r, has);
    FirstsEqual(query, has, FAMILIES);
    forall f {
      LabelNamesFamily(r.verb, path, query, f);
    }
    SameOption(FirstFamily(query), FirstPresent(has, FAMILIES));
  }

  lemma SameOption(a: Option<Family>, b: Option<Family>)
    ensures a == b <==> forall f :: a == Some(f) <==> b == Some(f)
  {
    if a.Some? {
      assert a == Some(a.value);
    } else if b.Some? {
      assert b == Some(b.value);
    }
  }

  // Queries that are read alike

  /** A segment the raw scan and the parser read alike: its name is not escaped, its value is well
      escaped, and it does not spell a control-plane key in other letters. */
  predicate Plain(seg: string) {
    && ';' !in seg && '%' !in Name(seg) && '+' !in Name(seg)
    && QueryUnescape(ValuePart(seg)).Some?
    && forall f <- FAMILIES :: EqualFold(Name(seg), Key(f)) ==> Name(seg) == Key(f)
  }

  lemma PlainSegment(seg: string, f: Family)
    requires Plain(seg)
    ensures Name(seg) == Key(f) <==> ParsedName(seg).Some? && EqualFold(ParsedName(seg).value, Key(f))
  {
    UnescapePlain(Name(seg));
    FamiliesComplete(f);
    KeyIsPlain(f);
    if seg == "" {
      assert Name(seg) == "";
    }
  }

  lemma PlainQuery(query: string, f: Family)
    requires forall seg <- Split(query, '&') :: Plain(seg)
    ensures HasParam(query, Key(f)) <==> StandsIn(query, f)
  {
    forall seg <- Split(query, '&') {
      PlainSegment(seg, f);
    }
  }

  lemma {:induction false} PlainReadAlike(query: string, fs: seq<Family>)
    requires forall seg <- Split(query, '&') :: Plain(seg)
    ensures ReadAlike(query, fs)
  {
    if fs != [] {
      PlainQuery(query, fs[0]);
      if !HasParam(query, Key(fs[0])) {
        StandsInIsParsed(query, fs[0]);
        PlainReadAlike(query, fs[1..]);
      }
    }
  }

  /** In particular they agree on queries all of whose segments are plain. */
  lemma PlainLabelMatches(flags: Flags, r: Request, has: Params, path: string, query: string, f: Family)
    requires ControlVerb(r.verb) && PassesHeaderChecks(r) && !Reserved(path)
    requires forall key :: has(key) <==> HasParam(query, key)
    requires forall seg <- Split(query, '&') :: Plain(seg)
    ensures Label(r.verb, path, query) == Key(f) <==> SelectedFamily(Dispatch(flags, r, has)) == Some(f)
  {
    PlainReadAlike(query, FAMILIES);
    LabelMatchesDispatch(flags, r, has, path, query);
  }

  // Queries that are not

  lemma KeyFolds(f: Family)
    ensures Folded(Key(f)) == Key(f)
  {
    KeyIsLower(f);
    FoldedAscii(Key(f));
  }

  lemma BareSegment(query: string)
    requires Bare(query)
    ensures Split(query, '&') == [query] && Name(query) == query && ParsedName(query) == Some(query)
  {
    SplitNone(query);
    NoIndex(query, '=');
    UnescapePlain(query);
  }

  lemma BareParam(query: string, key: string)
    requires Bare(query)
    ensures HasParam(query, key) <==> EqualFold(query, key)
    ensures HasName(Split(query, '&'), key) <==> query == key
  {
    BareSegment(query);
    HasNameOne(query, key);
    assert query in [query];
  }

  /** A key in any other spelling still selects its family, but the label is that of the path. */
  lemma OtherSpellingMislabelled(flags: Flags, r: Request, has: Params, path: string, query: string, f: Family)
    requires ControlVerb(r.verb) && PassesHeaderChecks(r) && !Reserved(path)
    requires forall key :: has(key) <==> HasParam(query, key)
    requires Bare(query) && EqualFold(query, Key(f)) && query != Key(f)
    ensures SelectedFamily(Dispatch(flags, r, has)) == Some(f)
    ensures Label(r.verb, path, query) == PathLabel(r.verb, TrimSlashes(path))
  {
    forall g: Family
      ensures has(Key(g)) <==> g == f
      ensures !HasName(Split(query, '&'), Key(g))
    {
      BareParam(query, Key(g));
      KeyFolds(f);
      KeyFolds(g);
      KeysDistinct(f);
    }
    SelectedIsFirst(flags, r, has);
    OnlyPresent(has, f, FAMILIES);
    FamiliesComplete(f);
    NonePresent(Literal(query), FAMILIES);
  }

  lemma {:induction false} OnlyPresent(has: Params, f: Family, fs: seq<Family>)
    requires forall g :: has(Key(g)) <==> g == f
    ensures FirstPresent(has, fs) == if f in fs then Some(f) else None
  {
    if fs != [] {
      OnlyPresent(has, f, fs[1..]);
    }
  }

  /** A Get of the bucket as such. */
  lemma ListingLabel()
    ensures !Reserved("/bucket") && PathLabel("GET", TrimSlashes("/bucket")) == "list_objects"
  {
    assert TrimSlashes("/bucket") == "bucket" && '/' !in "bucket";
  }

  lemma SelectedAndEnabled(flags: Flags, r: Request, has: Params, f: Family)
    requires SelectedFamily(Dispatch(flags, r, has)) == Some(f) && flags(Control(f))
    ensures Dispatch(flags, r, has) == Handled(f)
  {
    if Dispatch(flags, r, has).Disabled? {
      DisabledIsDeserved(flags, r, has, Control(f));
    }
  }

  const CAPITALS := "CORS"

  lemma CapitalsFold()
    ensures Bare(CAPITALS) && EqualFold(CAPITALS, Key(Cors)) && CAPITALS != Key(Cors)
  {
    BareWord(CAPITALS);
    FoldedAscii(CAPITALS);
    KeyFolds(Cors);
    assert Folded(CAPITALS) == "cors";
    assert CAPITALS[0] != Key(Cors)[0];
  }

  /** In capitals, for one: the request is handled as a CORS request and counted as a listing. */
  lemma {:induction false} CapitalKeyMislabelled(flags: Flags, r: Request, has: Params)
    requires flags(Control(Cors)) && r.verb == "GET" && PassesHeaderChecks(r)
    requires forall key :: has(key) <==> HasParam(CAPITALS, key)
    ensures Dispatch(flags, r, has) == Handled(Cors)
    ensures Label(r.verb, "/bucket", CAPITALS) == "list_objects"
  {
    CapitalsFold();
    ListingLabel();
    OtherSpellingMislabelled(flags, r, has, "/bucket", CAPITALS, Cors);
    SelectedAndEnabled(flags, r, has, Cors);
  }

  lemma FoldedStep(s: string)
    requires s != "" && s[0] < '\U{0080}'
    ensures Folded(s) == [Lower(s[0])] + Folded(s[1..])
  {
  }

  lemma {:induction false} FoldedConcat(a: string, b: string)
    requires Ascii(a)
    ensures Folded(a + b) == Folded(a) + Folded(b)
  {
    if a == "" {
      assert a + b == b;
    } else {
      assert a[0] in a && forall c <- a[1..] :: c in a;
      assert (a + b)[0] == a[0] && (a + b)[1..] == a[1..] + b;
      FoldedStep(a);
      FoldedStep(a + b);
      FoldedConcat(a[1..], b);
      Associate([Lower(a[0])], Folded(a[1..]), Folded(b));
    }
  }

  lemma LongSFolds()
    ensures Bare("cor" + LONG_S) && EqualFold("cor" + LONG_S, Key(Cors)) && "cor" + LONG_S != Key(Cors)
  {
    BareWord("cor" + LONG_S);
    FoldedConcat("cor", LONG_S);
    FoldedAscii("cor");
    KeyFolds(Cors);
    assert LONG_S[2..] == "" && Folded(LONG_S) == "s";
    assert Folded("cor" + LONG_S) == "cors";
  }

  /** With a long s for its last letter, for another. */
  lemma {:induction false} LongSMislabelled(flags: Flags, r: Request, has: Params)
    requires flags(Control(Cors)) && r.verb == "GET" && PassesHeaderChecks(r)
    requires forall key :: has(key) <==> HasParam("cor" + LONG_S, key)
    ensures Dispatch(flags, r, has) == Handled(Cors)
    ensures Label(r.verb, "/bucket", "cor" + LONG_S) == "list_objects"
  {
    LongSFolds();
    ListingLabel();
    OtherSpellingMislabelled(flags, r, has, "/bucket", "cor" + LONG_S, Cors);
    SelectedAndEnabled(flags, r, has, Cors);
  }

  lemma DroppedSplit(bad: string, f: Family, g: Family)
    requires '&' !in bad && QueryUnescape(bad).None?
    ensures var dropped := Key(f) + "=" + bad;
            && Split(dropped + "&" + Key(g), '&') == [dropped, Key(g)]
            && Name(dropped) == Key(f) && ParsedName(dropped).None?
            && Name(Key(g)) == Key(g) && ParsedName(Key(g)) == Some(Key(g))
  {
    var dropped := Key(f) + "=" + bad;
    KeyIsPlain(f);
    KeyIsPlain(g);
    SplitPiece(dropped, Key(g));
    BareSegment(Key(g));
    IndexOfFirst(Key(f), '=', bad);
    assert dropped[|Key(f)| + 1..] == bad;
  }

  lemma TwoSegments(a: string, b: string, key: string)
    ensures HasName([a, b], key) <==> Name(a) == key || Name(b) == key
    ensures ParsedName(a).None? && ParsedName(b).Some? ==> (ParsedIn([a, b], key) <==> EqualFold(ParsedName(b).value, key))
  {
    var segs := [a, b];
    assert segs[0] in segs && segs[1] in segs;
  }

  lemma DroppedQuery(query: string, bad: string, f: Family, g: Family, h: Family)
    requires '&' !in bad && QueryUnescape(bad).None? && query == Key(f) + "=" + bad + "&" + Key(g)
    ensures HasParam(query, Key(h)) <==> h == g
    ensures Literal(query)(Key(h)) <==> h == f || h == g
  {
    DroppedSplit(bad, f, g);
    TwoSegments(Key(f) + "=" + bad, Key(g), Key(h));
    KeyFolds(g);
    KeyFolds(h);
    KeysDistinct(h);
  }

  /** The other way to disagree: a key whose value is badly escaped is dropped by the parser, so that
      a later family is selected, but gives the label all the same. */
  lemma DroppedKeyMislabelled(flags: Flags, r: Request, has: Params, path: string, query: string, bad: string, i: nat, j: nat)
    requires ControlVerb(r.verb) && PassesHeaderChecks(r) && !Reserved(path) && i < j < |FAMILIES|
    requires '&' !in bad && QueryUnescape(bad).None? && query == Key(FAMILIES[i]) + "=" + bad + "&" + Key(FAMILIES[j])
    requires forall key :: has(key) <==> HasParam(query, key)
    ensures SelectedFamily(Dispatch(flags, r, has)) == Some(FAMILIES[j])
    ensures Label(r.verb, path, query) == Key(FAMILIES[i])
  {
    forall h: Family {
      DroppedQuery(query, bad, FAMILIES[i], FAMILIES[j], h);
    }
    FamiliesDistinct();
    SelectedIsFirst(flags, r, has);
    FirstPresentAt(has, FAMILIES, j);
    FirstPresentAt(Literal(query), FAMILIES, i);
    LabelNamesFamily(r.verb, path, query, FAMILIES[i]);
  }
}
