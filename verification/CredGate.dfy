/** The credential gate of main.go under concurrent reloads: where the map comes from at startup
    (config/settings.go), the three loads of the store a request makes, and the choice of signing
    credentials in the Director. Any number of requests are interleaved with the world of
    `CredWatcher`. */
module CredGate {
  import opened Wrappers
  import opened CredStore
  import CredWatcher
  import opened QueryScan

  /** `aws.Credentials`: access key and secret. */
  datatype Pair = Pair(ak: string, sk: string)

  // Startup

  /** The environment: the credentials file (its path and content), the inline map and the legacy
      pair; an unset variable is empty. */
  datatype Env = Env(path: string, file: Option<string>, inline: string, legacyAk: string, legacySk: string, dryRun: bool)

  /** `loadHMACCredentials`; None for a fatal configuration error. */
  function LoadCredentials(decode: Decoder, env: Env): Option<Credentials> {
    if env.path != "" then CredWatcher.LoadFile(decode, env.file)
    else if env.inline != "" then Accepted(decode, env.inline)
    else if env.legacyAk != "" && env.legacySk != "" then Some(map[env.legacyAk := env.legacySk])
    else Some(map[])
  }

  /** Where the map comes from: a credentials file before all else, and then it must be valid, whatever
      the rest says; an inline map next, likewise; else the legacy pair, if complete, with its access
      key as the only key. */
  lemma SourceOfCredentials(decode: Decoder, env: Env, m: Credentials)
    ensures LoadCredentials(decode, env) == Some(m) <==>
              if env.path != "" then env.file.Some? && Accepted(decode, env.file.value) == Some(m)
              else if env.inline != "" then Accepted(decode, env.inline) == Some(m)
              else if env.legacyAk == "" || env.legacySk == "" then m == map[]
              else m.Keys == {env.legacyAk} && m[env.legacyAk] == env.legacySk
  {
    if m.Keys == {env.legacyAk} && m[env.legacyAk] == env.legacySk {
      assert m == map[env.legacyAk := env.legacySk];
    }
  }

  /** `LoadConfig`, then the seeding of the store; `watching` is whether the watcher could start. */
  ghost predicate Starts(decode: Decoder, env: Env, watching: bool, s: State) {
    var m := LoadCredentials(decode, env);
    && m.Some?
    && (!env.dryRun && env.path == "" ==> m.value != map[])
    && (watching ==> env.path != "")
    && s.world == CredWatcher.World(env.file, [], CredWatcher.Watcher(false, m.value, |m.value|, 0, 0), watching,
                                    if env.file.Some? then [env.file.value] else [], [m.value])
    && s.requests == map[]
    && s.legacy == Pair(env.legacyAk, env.legacySk)
  }

  // Requests

  datatype Phase =
    | Arrived
    | SawEntries                  // handleS3Request found the store non-empty
    | HasKey(ak: string)          // so did validateClientCredential, and the request names a key
    | Dropped                     // validateClientCredential found it empty: nothing is written
    | Rejected(code: string)      // 403 with this S3 error code
    | Admitted(pair: Option<Pair>)
    | Sent(signed: Option<Pair>)  // forwarded, signed with this pair or not at all

  /** `began` is the number of the snapshot the store held when the request arrived, and `seen` how
      many there had been at its last load of the store. */
  datatype Request = Request(authorization: string, rawQuery: string, phase: Phase, began: nat, seen: nat)

  datatype State = State(world: CredWatcher.World, requests: map<nat, Request>, legacy: Pair)

  datatype Action =
    | Outside(action: CredWatcher.Action)
    | Arrive(id: nat, authorization: string, rawQuery: string)
    | CheckSize(id: nat)
    | CheckSizeAgain(id: nat)
    | LookUp(id: nat)
    | Forward(id: nat)

  /** The access key a request names: in the header, or else in the query. */
  function NamedKey(authorization: string, rawQuery: string): Option<string> {
    var ak := ExtractAccessKey(authorization);
    if ak.Some? then ak else KeyInQuery(rawQuery)
  }

  /** The Director: the pair resolved for the request, or else the legacy pair if complete. */
  function SigningPair(resolved: Option<Pair>, legacy: Pair): Option<Pair> {
    if resolved.Some? then resolved
    else if legacy.ak == "" || legacy.sk == "" then None
    else Some(legacy)
  }

  // Which key a request names

  /** The first `Credential=` of the header is followed by this key and a slash. */
  ghost predicate HeaderNamesKey(authorization: string, ak: string) {
    ak != "" && '/' !in ak && exists p :: FirstFieldAt(authorization, p) && ak + "/" <= authorization[p + 11..]
  }

  /** A key named in the header wins; the query is asked only if the header names none. */
  lemma NamedKeyExactly(authorization: string, rawQuery: string, ak: string)
    ensures NamedKey(authorization, rawQuery) == Some(ak) <==>
              || HeaderNamesKey(authorization, ak)
              || ((forall k :: !HeaderNamesKey(authorization, k)) && KeyInQuery(rawQuery) == Some(ak))
  {
    forall k
      ensures ExtractAccessKey(authorization) == Some(k) <==> HeaderNamesKey(authorization, k)
    {
      HeaderNames(authorization, k);
    }
    var named := ExtractAccessKey(authorization);
    if named.Some? {
      assert HeaderNamesKey(authorization, named.value);
    }
  }

  /** A request without `Credential=` in its header, presigned with a key that can be presigned with,
      names that key. */
  lemma PresignedNamesKey(authorization: string, rawQuery: string, front: string, name: string, ak: string,
                          code: string, rest: string)
    requires forall p :: 0 <= p <= |authorization| ==> !("Credential=" <= authorization[p..])
    requires Presigned(rawQuery, front, name, ak, code, rest) && ak != "" && '&' !in ak && !HasSlash(ak)
    ensures NamedKey(authorization, rawQuery) == Some(ak)
  {
    QueryRoundTrip(rawQuery, front, name, ak, code, rest);
    NamedKeyExactly(authorization, rawQuery, ak);
  }

  /** A signed header, as SDKs write it, names its key whatever the query says. */
  lemma SignedNamesKey(scheme: string, ak: string, rest: string, rawQuery: string)
    requires ak != "" && '/' !in ak
    requires forall p :: 0 <= p < |scheme| ==> !("Credential=" <= (scheme + "Credential=" + ak + "/" + rest)[p..])
    ensures NamedKey(scheme + "Credential=" + ak + "/" + rest, rawQuery) == Some(ak)
  {
    var header := scheme + "Credential=" + ak + "/" + rest;
    var p := |scheme|;
    assert header[p..] == "Credential=" + ak + "/" + rest;
    assert header[p + 11..] == ak + "/" + rest;
    assert FirstFieldAt(header, p);
    NamedKeyExactly(header, rawQuery, ak);
  }

  function NextPhase(store: Credentials, legacy: Pair, r: Request, a: Action): Phase {
    match a
    case CheckSize(_) =>
      if !r.phase.Arrived? then r.phase else if |store| > 0 then SawEntries else Admitted(None)
    case CheckSizeAgain(_) =>
      if !r.phase.SawEntries? then r.phase
      else if |store| == 0 then Dropped
      else (match NamedKey(r.authorization, r.rawQuery)
            case Some(ak) => HasKey(ak)
            case None => Rejected("AccessDenied"))
    case LookUp(_) =>
      if !r.phase.HasKey? then r.phase
      else if r.phase.ak in store then Admitted(Some(Pair(r.phase.ak, store[r.phase.ak])))
      else Rejected("InvalidAccessKeyId")
    case Forward(_) =>
      if !r.phase.Admitted? then r.phase else Sent(SigningPair(r.phase.pair, legacy))
    case _ => r.phase
  }

  /** The phase of a request after its three loads of the store found these maps. */
  function AfterLoads(r: Request, legacy: Pair, first: Credentials, second: Credentials, third: Credentials): Phase {
    var r1 := r.(phase := NextPhase(first, legacy, r, CheckSize(0)));
    var r2 := r1.(phase := NextPhase(second, legacy, r1, CheckSizeAgain(0)));
    NextPhase(third, legacy, r2, LookUp(0))
  }

  /** What the three loads decide: the first, whether there are credentials at all; the second, whether
      to drop the request; the third, whether the key it names is known, and its secret. */
  lemma LoadsDecide(r: Request, legacy: Pair, first: Credentials, second: Credentials, third: Credentials, ak: string)
    requires r.phase.Arrived?
    ensures var p, named := AfterLoads(r, legacy, first, second, third), NamedKey(r.authorization, r.rawQuery);
            && (first == map[] ==> p == Admitted(None))
            && (first != map[] && second == map[] ==> p == Dropped)
            && (first != map[] && second != map[] && named.None? ==> p == Rejected("AccessDenied"))
            && (first != map[] && second != map[] && named == Some(ak) ==>
                  p == if ak in third then Admitted(Some(Pair(ak, third[ak]))) else Rejected("InvalidAccessKeyId"))
  {
    assert |first| == 0 <==> first == map[];
    assert |second| == 0 <==> second == map[];
  }

  function Step(base: string, decode: Decoder, s: State, a: Action): State {
    match a
    case Outside(o) => s.(world := CredWatcher.Step(base, decode, s.world, o))
    case Arrive(id, authorization, rawQuery) =>
      if id in s.requests || s.world.snapshots == [] then s
      else
        s.(requests := s.requests[id := Request(authorization, rawQuery, Arrived, |s.world.snapshots| - 1, |s.world.snapshots|)])
    case _ =>
      if a.id !in s.requests then s
      else s.(requests := s.requests[a.id := Advanced(s, s.requests[a.id], a)])
  }

  /** Whether the request still has to load the store. */
  predicate Loading(p: Phase) {
    !p.Dropped? && !p.Rejected? && !p.Admitted? && !p.Sent?
  }

  function Advanced(s: State, r: Request, a: Action): Request {
    r.(phase := NextPhase(s.world.watcher.store, s.legacy, r, a), seen := if Loading(r.phase) then |s.world.snapshots| else r.seen)
  }

  function Run(base: string, decode: Decoder, s: State, actions: seq<Action>): State
    decreases actions
  {
    if actions == [] then s else Run(base, decode, Step(base, decode, s, actions[0]), actions[1..])
  }

  // Invariant

  /** The pair answers the key the request names, out of a snapshot that was live between the
      request's arrival and its last load of the store. */
  ghost predicate Backed(snapshots: seq<Credentials>, r: Request, p: Pair) {
    && NamedKey(r.authorization, r.rawQuery) == Some(p.ak)
    && exists i :: r.began <= i < r.seen <= |snapshots| && p.ak in snapshots[i] && snapshots[i][p.ak] == p.sk
  }

  /** The error fits: no key named at all, or one that some snapshot live in that time does not
      know. */
  ghost predicate Deserved(snapshots: seq<Credentials>, r: Request, code: string) {
    match NamedKey(r.authorization, r.rawQuery)
    case None => code == "AccessDenied"
    case Some(ak) => code == "InvalidAccessKeyId" && exists i :: r.began <= i < r.seen <= |snapshots| && ak !in snapshots[i]
  }

  ghost predicate RequestOk(empty: bool, snapshots: seq<Credentials>, r: Request) {
    && r.began < r.seen <= |snapshots|
    && match r.phase
       case Arrived => true
       case SawEntries => !empty
       case HasKey(ak) => !empty && NamedKey(r.authorization, r.rawQuery) == Some(ak)
       case Dropped => false
       case Rejected(code) => !empty && Deserved(snapshots, r, code)
       case Admitted(p) => if empty then p.None? else p.Some? && Backed(snapshots, r, p.value)
       case Sent(p) => if empty then p.None? else p.Some? && Backed(snapshots, r, p.value)
  }

  /** `empty` says whether the process was started without credentials, for good. */
  ghost predicate Inv(empty: bool, s: State) {
    && (empty <==> s.world.watcher.store == map[])
    && (empty ==> !s.world.running && (s.legacy.ak == "" || s.legacy.sk == ""))
    && |s.world.snapshots| > 0 && s.world.snapshots[|s.world.snapshots| - 1] == s.world.watcher.store
    && forall id <- s.requests :: RequestOk(empty, s.world.snapshots, s.requests[id])
  }

  /** Whatever the file becomes, a reload never empties the store. */
  lemma WorldStepKeepsNonEmpty(base: string, decode: Decoder, w: CredWatcher.World, a: CredWatcher.Action)
    requires w.watcher.store == map[] ==> !w.running
    ensures var w' := CredWatcher.Step(base, decode, w, a);
            && (w'.watcher.store == map[] <==> w.watcher.store == map[])
            && (!w.running ==> !w'.running)
            && w.snapshots <= w'.snapshots
            && (w'.watcher.store == w.watcher.store ==> w'.snapshots == w.snapshots)
            && (w'.watcher.store != w.watcher.store ==> w'.snapshots == w.snapshots + [w'.watcher.store])
  {
  }

  /** What signs: the resolved pair if there is one, the legacy pair only if it is complete. */
  lemma Signs(resolved: Option<Pair>, legacy: Pair, p: Pair)
    ensures SigningPair(resolved, legacy) == Some(p) <==>
              resolved == Some(p) || (resolved.None? && p == legacy && p.ak != "" && p.sk != "")
  {
  }

  lemma RequestOkGrows(empty: bool, snapshots: seq<Credentials>, longer: seq<Credentials>, r: Request)
    requires RequestOk(empty, snapshots, r) && snapshots <= longer
    ensures RequestOk(empty, longer, r)
  {
  }

  lemma PhaseStepOk(empty: bool, s: State, id: nat, a: Action)
    requires Inv(empty, s) && id in s.requests
    ensures RequestOk(empty, s.world.snapshots, Advanced(s, s.requests[id], a))
  {
  }

  lemma StepKeepsInv(base: string, decode: Decoder, empty: bool, s: State, a: Action)
    requires Inv(empty, s)
    ensures Inv(empty, Step(base, decode, s, a))
  {
    var s' := Step(base, decode, s, a);
    match a
    case Outside(o) =>
      WorldStepKeepsNonEmpty(base, decode, s.world, o);
      forall id <- s.requests
        ensures RequestOk(empty, s'.world.snapshots, s'.requests[id])
      {
        RequestOkGrows(empty, s.world.snapshots, s'.world.snapshots, s.requests[id]);
      }
    case Arrive(id, _, _) =>
    case _ =>
      if a.id in s.requests {
        PhaseStepOk(empty, s, a.id, a);
      }
  }

  lemma {:induction false} RunKeepsInv(base: string, decode: Decoder, empty: bool, s: State, actions: seq<Action>)
    requires Inv(empty, s)
    ensures Inv(empty, Run(base, decode, s, actions))
    decreases actions
  {
    if actions != [] {
      StepKeepsInv(base, decode, empty, s, actions[0]);
      RunKeepsInv(base, decode, empty, Step(base, decode, s, actions[0]), actions[1..]);
    }
  }

  lemma StartsInv(decode: Decoder, env: Env, watching: bool, s: State)
    requires Starts(decode, env, watching, s)
    ensures Inv(s.world.watcher.store == map[], s)
  {
  }

  /** For every configuration the process starts with and every interleaving of requests, file
      writes and reloads: no request is dropped without an answer. With credentials configured,
      every request that is forwarded is signed, with the secret that its own access key had in
      some snapshot live between the request's arrival and its last load of the store, and every
      other finished request got the error it deserves. Without, nothing is signed: the Director's
      legacy pair is never used. */
  lemma GateSafe(base: string, decode: Decoder, env: Env, watching: bool, s: State, actions: seq<Action>, id: nat)
    requires Starts(decode, env, watching, s)
    requires id in Run(base, decode, s, actions).requests
    ensures var s' := Run(base, decode, s, actions);
            var r := s'.requests[id];
            && !r.phase.Dropped?
            && (LoadCredentials(decode, env).value != map[] ==>
                  && (r.phase.Rejected? ==> Deserved(s'.world.snapshots, r, r.phase.code))
                  && (r.phase.Admitted? ==> r.phase.pair.Some? && Backed(s'.world.snapshots, r, r.phase.pair.value))
                  && (r.phase.Sent? ==> r.phase.signed.Some? && Backed(s'.world.snapshots, r, r.phase.signed.value)))
            && (LoadCredentials(decode, env).value == map[] ==>
                  && !r.phase.Rejected?
                  && (r.phase.Sent? ==> r.phase.signed.None?))
  {
    StartsInv(decode, env, watching, s);
    var empty := s.world.watcher.store == map[];
    RunKeepsInv(base, decode, empty, s, actions);
    assert RequestOk(empty, Run(base, decode, s, actions).world.snapshots, Run(base, decode, s, actions).requests[id]);
  }

  /** Once resolved, the pair is settled: whatever reloads follow, it is the one that signs. */
  lemma {:induction false} ResolvedPairSigns(base: string, decode: Decoder, s: State, actions: seq<Action>, id: nat, p: Pair)
    requires id in s.requests && s.requests[id].phase in {Admitted(Some(p)), Sent(Some(p))}
    ensures var s' := Run(base, decode, s, actions);
            id in s'.requests && s'.requests[id].phase in {Admitted(Some(p)), Sent(Some(p))}
    decreases actions
  {
    if actions != [] {
      ResolvedPairSigns(base, decode, Step(base, decode, s, actions[0]), actions[1..], id, p);
    }
  }

  // How far a request still has to go

  predicate Ended(p: Phase) {
    p.Rejected? || p.Sent?
  }

  function StepsLeft(p: Phase): nat {
    match p
    case Arrived => 4
    case SawEntries => 3
    case HasKey(_) => 2
    case Admitted(_) => 1
    case _ => 0
  }

  /** The next thing the request does itself. */
  predicate Own(s: State, a: Action, id: nat) {
    id in s.requests &&
    match s.requests[id].phase
    case Arrived => a == CheckSize(id)
    case SawEntries => a == CheckSizeAgain(id)
    case HasKey(_) => a == LookUp(id)
    case Admitted(_) => a == Forward(id)
    case _ => false
  }

  /** How many of the steps are the request's own. */
  function OwnSteps(base: string, decode: Decoder, s: State, actions: seq<Action>, id: nat): nat
    decreases actions
  {
    if actions == [] then 0
    else (if Own(s, actions[0], id) then 1 else 0) + OwnSteps(base, decode, Step(base, decode, s, actions[0]), actions[1..], id)
  }

  /** Only its own steps move a request, and each brings it closer to its end. */
  lemma OwnStepAdvances(base: string, decode: Decoder, s: State, a: Action, id: nat)
    requires id in s.requests
    ensures var s' := Step(base, decode, s, a);
            && id in s'.requests
            && if Own(s, a, id) then StepsLeft(s'.requests[id].phase) < StepsLeft(s.requests[id].phase)
               else s'.requests[id].phase == s.requests[id].phase
  {
  }

  lemma {:induction false} OwnStepsRunOut(base: string, decode: Decoder, s: State, actions: seq<Action>, id: nat)
    requires id in s.requests
    ensures var s' := Run(base, decode, s, actions);
            && id in s'.requests
            && OwnSteps(base, decode, s, actions, id) + StepsLeft(s'.requests[id].phase) <= StepsLeft(s.requests[id].phase)
    decreases actions
  {
    if actions != [] {
      OwnStepAdvances(base, decode, s, actions[0], id);
      OwnStepsRunOut(base, decode, Step(base, decode, s, actions[0]), actions[1..], id);
    }
  }

  /** Every request ends by its own steps, whatever the file, the watcher and other requests do: it
      takes at most four, and when it can take no more it has been rejected with an error or sent. */
  lemma RequestEnds(base: string, decode: Decoder, env: Env, watching: bool, s: State, before: seq<Action>,
                    after: seq<Action>, id: nat)
    requires Starts(decode, env, watching, s)
    requires id in Run(base, decode, s, before).requests
    ensures var s1 := Run(base, decode, s, before);
            var s2 := Run(base, decode, s1, after);
            && id in s2.requests
            && OwnSteps(base, decode, s1, after, id) <= StepsLeft(s1.requests[id].phase) <= 4
            && (Ended(s2.requests[id].phase) <==> forall a :: !Own(s2, a, id))
  {
    StartsInv(decode, env, watching, s);
    var empty := s.world.watcher.store == map[];
    var s1 := Run(base, decode, s, before);
    RunKeepsInv(base, decode, empty, s, before);
    RunKeepsInv(base, decode, empty, s1, after);
    OwnStepsRunOut(base, decode, s1, after, id);
    var s2 := Run(base, decode, s1, after);
    assert RequestOk(empty, s2.world.snapshots, s2.requests[id]);
    EndedIfStuck(s2, id);
  }

  lemma EndedIfStuck(s: State, id: nat)
    requires id in s.requests && !s.requests[id].phase.Dropped?
    ensures Ended(s.requests[id].phase) <==> forall a :: !Own(s, a, id)
  {
    if !Ended(s.requests[id].phase) {
      var a := match s.requests[id].phase
               case Arrived => CheckSize(id)
               case SawEntries => CheckSizeAgain(id)
               case HasKey(_) => LookUp(id)
               case _ => Forward(id);
      assert Own(s, a, id);
    }
  }

  /** A request arrives with the snapshot the store holds, and loads nothing more once it is decided. */
  lemma Arrives(base: string, decode: Decoder, s: State, id: nat, authorization: string, rawQuery: string)
    requires id !in s.requests && s.world.snapshots != []
    ensures var s' := Step(base, decode, s, Arrive(id, authorization, rawQuery));
            && id in s'.requests && s'.world == s.world
            && s'.requests[id] == Request(authorization, rawQuery, Arrived, |s.world.snapshots| - 1, |s.world.snapshots|)
  {
  }

  lemma {:induction false} DecisionStands(base: string, decode: Decoder, s: State, actions: seq<Action>, id: nat)
    requires id in s.requests && !Loading(s.requests[id].phase)
    ensures var s' := Run(base, decode, s, actions);
            && id in s'.requests && s'.requests[id].seen == s.requests[id].seen
            && (!s.requests[id].phase.Admitted? ==> s'.requests[id] == s.requests[id])
    decreases actions
  {
    if actions != [] {
      DecisionStands(base, decode, Step(base, decode, s, actions[0]), actions[1..], id);
    }
  }

  // The gate in place

  /** `*http.Request`, with the credentials the gate stores in its context. */
  class HttpRequest {
    const authorization: string
    const rawQuery: string
    var resolved: Option<Pair>

    constructor (authorization: string, rawQuery: string)
      ensures this.authorization == authorization && this.rawQuery == rawQuery && resolved.None?
    {
      this.authorization, this.rawQuery, resolved := authorization, rawQuery, None;
    }
  }

  /** The S3 errors written to a response. */
  class HttpResponse {
    var errors: seq<string>

    constructor ()
      ensures errors == []
    {
      errors := [];
    }

    method WriteS3Error(code: string)
      modifies this
      ensures errors == old(errors) + [code]
    {
      errors := errors + [code];
    }
  }

  /** `validateClientCredential`, with a reload that may land between its two loads of the store. */
  method ValidateClientCredential(w: HttpResponse, r: HttpRequest, store: Store, reload: Option<GoMap>)
    returns (creds: Option<Pair>)
    requires r.resolved.None?
    modifies w, r, store, store.loaded
    ensures store.Contents() == if old(store.Contents()) == map[] || reload.None? then old(store.Contents()) else reload.value.entries
    ensures r.resolved == creds
    ensures creds.Some? <==> old(store.Contents()) != map[] && NamedKey(r.authorization, r.rawQuery).Some?
                             && NamedKey(r.authorization, r.rawQuery).value in store.Contents()
    ensures creds.Some? ==> NamedKey(r.authorization, r.rawQuery) == Some(creds.value.ak)
                            && creds.value.sk == store.Contents()[creds.value.ak]
    ensures w.errors == old(w.errors) +
                        if creds.Some? || old(store.Contents()) == map[] then []
                        else if NamedKey(r.authorization, r.rawQuery).None? then ["AccessDenied"]
                        else ["InvalidAccessKeyId"]
  {
    var n := store.Size();
    if n == 0 {
      return None;
    }
    ghost var newEntries := if reload.Some? then reload.value.entries else store.Contents();
    var ak := ExtractAccessKey(r.authorization);
    if ak.None? {
      ak := ExtractAccessKeyFromQuery(r.rawQuery);
    }
    if reload.Some? {
      store.Replace(reload.value);
    }
    assert store.Contents() == newEntries;
    if ak.None? {
      w.WriteS3Error("AccessDenied");
      return None;
    }
    var sk, found := store.Lookup(ak.value);
    if !found {
      w.WriteS3Error("InvalidAccessKeyId");
      return None;
    }
    creds := Some(Pair(ak.value, sk));
    r.resolved := creds;
  }

  /** The gate at the head of `handleS3Request`, with reloads between the loads: it does what the
      phases say for the maps it finds. As long as reloads are never empty, a request is admitted
      exactly when there are no credentials at all, or the key it names is in the map at the last load,
      whose pair is then the one resolved; a refused request has exactly one error written, the one it
      deserves, and an admitted one none. Only behind an empty reload would one be dropped silently. */
  method Gate(w: HttpResponse, r: HttpRequest, store: Store, reload1: Option<GoMap>, reload2: Option<GoMap>)
    returns (admitted: bool)
    requires r.resolved.None? && w.errors == []
    modifies w, r, store, store.loaded
    ensures var first := old(store.Contents());
            var second := if reload1.Some? then reload1.value.entries else first;
            var third := if reload2.Some? then reload2.value.entries else second;
            var named := NamedKey(r.authorization, r.rawQuery);
            var p := AfterLoads(Request(r.authorization, r.rawQuery, Arrived, 0, 1), Pair("", ""), first, second, third);
            && store.Contents() == (if first == map[] then map[] else if second == map[] then map[] else third)
            && admitted == p.Admitted?
            && r.resolved == (if p.Admitted? then p.pair else None)
            && w.errors == (if p.Rejected? then [p.code] else [])
            && (first == map[] ==> admitted && r.resolved.None? && w.errors == [])
            && (first != map[] && second == map[] ==> !admitted && w.errors == [])
            && (first != map[] && second != map[] ==>
                  && (admitted <==> named.Some? && named.value in third)
                  && (admitted ==> r.resolved == Some(Pair(named.value, third[named.value])))
                  && w.errors == if admitted then [] else if named.None? then ["AccessDenied"] else ["InvalidAccessKeyId"])
  {
    ghost var first := store.Contents();
    ghost var second := if reload1.Some? then reload1.value.entries else first;
    ghost var third := if reload2.Some? then reload2.value.entries else second;
    LoadsDecide(Request(r.authorization, r.rawQuery, Arrived, 0, 1), Pair("", ""), first, second, third,
                NamedKey(r.authorization, r.rawQuery).GetOr(""));
    var n := store.Size();
    if n == 0 {
      return true;
    }
    if reload1.Some? {
      store.Replace(reload1.value);
    }
    var creds := ValidateClientCredential(w, r, store, reload2);
    return creds.Some?;
  }

  /** A client with a presigned URL: with its key in the map, and no reload in between, it is admitted
      with its own pair; with a key that is not, it gets `InvalidAccessKeyId`. */
  method GatePresigned(w: HttpResponse, r: HttpRequest, store: Store, ghost front: string, ghost name: string,
                       ghost ak: string, ghost code: string, ghost rest: string)
    returns (admitted: bool)
    requires r.resolved.None? && w.errors == [] && store.Contents() != map[]
    requires forall p :: 0 <= p <= |r.authorization| ==> !("Credential=" <= r.authorization[p..])
    requires Presigned(r.rawQuery, front, name, ak, code, rest) && ak != "" && '&' !in ak && !HasSlash(ak)
    modifies w, r, store, store.loaded
    ensures admitted <==> ak in store.Contents()
    ensures admitted ==> w.errors == [] && r.resolved == Some(Pair(ak, store.Contents()[ak]))
    ensures !admitted ==> w.errors == ["InvalidAccessKeyId"]
    ensures store.Contents() == old(store.Contents())
  {
    PresignedNamesKey(r.authorization, r.rawQuery, front, name, ak, code, rest);
    admitted := Gate(w, r, store, None, None);
  }
}
