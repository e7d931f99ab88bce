/** The object-tagging handlers of main.go as a protocol: any number of Put, Delete and Get
    requests on one object generation, interleaved with each other and with outside writers of the
    object's metadata. A Put or Delete reads the contexts and the metageneration, computes a patch,
    and updates on condition that the metageneration is still the one it read. Of GCS this assumes
    that a metadata write adds one to the metageneration and that the conditional update is atomic.

    The main result is that the protocol is linearizable: the log of accepted writes, replayed as
    atomic "replace the whole tag map" and "clear" operations, explains the contexts of the object
    and every answer, in an order that respects real time. */
module TaggingProtocol {
  import opened Wrappers
  import opened TaggingTranslate

  datatype Op = Put(tags: seq<Tag>) | Delete | Get

  datatype Phase =
    | Begun
    | HasRead(seen: Option<Contexts>, metageneration: nat)
    | Committed(position: nat)                  // 200 or 204; where in the log
    | Refused                                   // 500
    | NotFound                                  // 404
    | Answered(tags: seq<Tag>, position: nat)   // a Get; how much of the log it saw

  /** `began` is the length of the log when the request arrived. */
  datatype Request = Request(op: Op, phase: Phase, began: nat)

  /** An accepted metadata write; an outside one may or may not patch the contexts. */
  datatype Entry = Tagging(id: nat, op: Op) | Outside(patch: Option<Patch>)

  datatype State = State(contexts: Contexts, metageneration: nat, requests: map<nat, Request>, log: seq<Entry>)

  datatype Action =
    | Begin(id: nat, op: Op)
    | ReadAttrs(id: nat, attrs: Option<Contexts>, answer: seq<Tag>)
    | ReadFails(id: nat)
    | Update(id: nat)
    | UpdateFails(id: nat)
    | OutsideWrite(patch: Option<Patch>)

  function Init(contexts: Contexts, metageneration: nat): State {
    State(contexts, metageneration, map[], [])
  }

  /** The patch a Put or Delete sends, from the contexts it has read. */
  function SentPatch(op: Op, seen: Option<Contexts>): Patch {
    match op
    case Put(tags) => ContextsPatch(tags, seen)
    case _ => map[]
  }

  function WithPhase(s: State, id: nat, phase: Phase): State
    requires id in s.requests
  {
    s.(requests := s.requests[id := s.requests[id].(phase := phase)])
  }

  predicate Unread(s: State, id: nat) {
    id in s.requests && s.requests[id].phase.Begun?
  }

  predicate Unsent(s: State, id: nat) {
    id in s.requests && s.requests[id].phase.HasRead?
  }

  /** One step; an action that cannot happen in `s` leaves it unchanged. */
  ghost function Step(s: State, a: Action): State {
    match a
    case Begin(id, op) =>
      if id in s.requests then s
      else s.(requests := s.requests[id := Request(op, Begun, |s.log|)])
    case ReadAttrs(id, attrs, answer) =>
      if !Unread(s, id) || Present(attrs) != s.contexts then s
      else if s.requests[id].op.Get? then
        if IsListing(answer, s.contexts) then WithPhase(s, id, Answered(answer, |s.log|)) else s
      else
        WithPhase(s, id, HasRead(attrs, s.metageneration))
    case ReadFails(id) =>
      if Unread(s, id) then WithPhase(s, id, NotFound) else s
    case Update(id) =>
      if !Unsent(s, id) then s
      else if s.requests[id].phase.metageneration != s.metageneration then WithPhase(s, id, Refused)
      else
        var r := s.requests[id];
        WithPhase(s, id, Committed(|s.log|)).(
          contexts := ApplyPatch(s.contexts, SentPatch(r.op, r.phase.seen)),
          metageneration := s.metageneration + 1,
          log := s.log + [Tagging(id, r.op)])
    case UpdateFails(id) =>
      if Unsent(s, id) then WithPhase(s, id, Refused) else s
    case OutsideWrite(patch) =>
      s.(contexts := if patch.Some? then ApplyPatch(s.contexts, patch.value) else s.contexts,
         metageneration := s.metageneration + 1,
         log := s.log + [Outside(patch)])
  }

  ghost function Run(s: State, actions: seq<Action>): State
    decreases actions
  {
    if actions == [] then s else Run(Step(s, actions[0]), actions[1..])
  }

  // The atomic object

  function Effect(contexts: Contexts, e: Entry): Contexts {
    match e
    case Tagging(_, Put(tags)) => TagMap(tags)
    case Tagging(_, _) => map[]
    case Outside(Some(patch)) => ApplyPatch(contexts, patch)
    case Outside(None) => contexts
  }

  function Replay(initial: Contexts, log: seq<Entry>): Contexts {
    if log == [] then initial
    else Effect(Replay(initial, log[..|log| - 1]), log[|log| - 1])
  }

  // The invariant

  /** What a request's phase says about the log. */
  ghost predicate Explained(initial: Contexts, first: nat, log: seq<Entry>, id: nat, r: Request) {
    && r.began <= |log|
    && match r.phase
       case HasRead(seen, m) =>
         && first + r.began <= m <= first + |log|
         && Present(seen) == Replay(initial, log[..m - first])
         && !r.op.Get?
       case Committed(at) => r.began <= at < |log| && log[at] == Tagging(id, r.op)
       case Answered(tags, at) => r.began <= at <= |log| && IsListing(tags, Replay(initial, log[..at]))
       case _ => true
  }

  /** A logged tagging write belongs to a request that was told so. */
  ghost predicate Acknowledged(requests: map<nat, Request>, log: seq<Entry>, i: nat)
    requires i < |log|
  {
    log[i].Tagging? ==>
      && log[i].id in requests
      && requests[log[i].id].phase == Committed(i)
      && requests[log[i].id].op == log[i].op
  }

  ghost predicate Inv(initial: Contexts, first: nat, s: State) {
    && s.metageneration == first + |s.log|
    && s.contexts == Replay(initial, s.log)
    && (forall id <- s.requests :: Explained(initial, first, s.log, id, s.requests[id]))
    && (forall i: nat :: i < |s.log| ==> Acknowledged(s.requests, s.log, i))
  }

  lemma ExplainedGrows(initial: Contexts, first: nat, log: seq<Entry>, e: Entry, id: nat, r: Request)
    requires Explained(initial, first, log, id, r)
    ensures Explained(initial, first, log + [e], id, r)
  {
    match r.phase
    case HasRead(_, m) => assert (log + [e])[..m - first] == log[..m - first];
    case Answered(_, at) => assert (log + [e])[..at] == log[..at];
    case _ =>
  }

  lemma ReplayGrows(initial: Contexts, log: seq<Entry>, e: Entry)
    ensures Replay(initial, log + [e]) == Effect(Replay(initial, log), e)
  {
    assert (log + [e])[..|log|] == log;
  }

  /** A request that is still pending is not in the log yet. */
  lemma PendingNotLogged(initial: Contexts, first: nat, s: State, id: nat)
    requires Inv(initial, first, s)
    requires id in s.requests ==> !s.requests[id].phase.Committed?
    ensures forall i: nat :: i < |s.log| && s.log[i].Tagging? ==> s.log[i].id != id
  {
    forall i: nat | i < |s.log| && s.log[i].Tagging?
      ensures s.log[i].id != id
    {
      assert Acknowledged(s.requests, s.log, i);
    }
  }

  /** An update that finds its metageneration unchanged finds its contexts unchanged too, so its
      patch has the effect of the atomic operation. */
  lemma CommitIsAtomic(initial: Contexts, first: nat, s: State, id: nat)
    requires Inv(initial, first, s) && Unsent(s, id)
    requires s.requests[id].phase.metageneration == s.metageneration
    ensures var r := s.requests[id];
            ApplyPatch(s.contexts, SentPatch(r.op, r.phase.seen)) == Effect(s.contexts, Tagging(id, r.op))
  {
    var r := s.requests[id];
    assert Explained(initial, first, s.log, id, r);
    assert s.log[..|s.log|] == s.log;
    if r.op.Put? {
      PatchReplaces(r.op.tags, r.phase.seen);
    }
  }

  lemma LogGrows(initial: Contexts, first: nat, s: State, e: Entry, s': State)
    requires Inv(initial, first, s)
    requires s'.log == s.log + [e] && s'.metageneration == s.metageneration + 1
    requires s'.contexts == Effect(s.contexts, e)
    requires if e.Outside? then s'.requests == s.requests
             else
               && Unsent(s, e.id) && e.op == s.requests[e.id].op
               && s.requests[e.id].began <= |s.log|
               && s' == WithPhase(s, e.id, Committed(|s.log|)).(contexts := s'.contexts, metageneration := s'.metageneration, log := s'.log)
    ensures Inv(initial, first, s')
  {
    ReplayGrows(initial, s.log, e);
    forall id <- s'.requests
      ensures Explained(initial, first, s'.log, id, s'.requests[id])
    {
      ExplainedGrows(initial, first, s.log, e, id, s.requests[id]);
    }
    if e.Tagging? {
      PendingNotLogged(initial, first, s, e.id);
    }
    forall i: nat | i < |s'.log|
      ensures Acknowledged(s'.requests, s'.log, i)
    {
      assert i < |s.log| ==> Acknowledged(s.requests, s.log, i) && s'.log[i] == s.log[i];
    }
  }

  lemma PhaseChanges(initial: Contexts, first: nat, s: State, id: nat, phase: Phase)
    requires Inv(initial, first, s) && id in s.requests && !s.requests[id].phase.Committed? && !phase.Committed?
    requires Explained(initial, first, s.log, id, s.requests[id].(phase := phase))
    ensures Inv(initial, first, WithPhase(s, id, phase))
  {
    PendingNotLogged(initial, first, s, id);
    var s' := WithPhase(s, id, phase);
    forall i: nat | i < |s'.log|
      ensures Acknowledged(s'.requests, s'.log, i)
    {
      assert Acknowledged(s.requests, s.log, i);
    }
  }

  lemma StepKeepsInv(initial: Contexts, first: nat, s: State, a: Action)
    requires Inv(initial, first, s)
    ensures Inv(initial, first, Step(s, a))
  {
    assert s.log[..|s.log|] == s.log;
    match a
    case Begin(id, op) =>
      if id !in s.requests {
        PendingNotLogged(initial, first, s, id);
        var s' := Step(s, a);
        forall i: nat | i < |s'.log|
          ensures Acknowledged(s'.requests, s'.log, i)
        {
          assert Acknowledged(s.requests, s.log, i);
        }
      }
    case ReadAttrs(id, attrs, answer) =>
      if Unread(s, id) {
        assert Explained(initial, first, s.log, id, s.requests[id]);
        if Step(s, a) != s {
          PhaseChanges(initial, first, s, id, Step(s, a).requests[id].phase);
        }
      }
    case Update(id) =>
      if Unsent(s, id) {
        assert Explained(initial, first, s.log, id, s.requests[id]);
        if s.requests[id].phase.metageneration != s.metageneration {
          PhaseChanges(initial, first, s, id, Refused);
        } else {
          CommitIsAtomic(initial, first, s, id);
          LogGrows(initial, first, s, Tagging(id, s.requests[id].op), Step(s, a));
        }
      }
    case ReadFails(id) =>
      if Unread(s, id) {
        assert Explained(initial, first, s.log, id, s.requests[id]);
        PhaseChanges(initial, first, s, id, NotFound);
      }
    case UpdateFails(id) =>
      if Unsent(s, id) {
        assert Explained(initial, first, s.log, id, s.requests[id]);
        PhaseChanges(initial, first, s, id, Refused);
      }
    case OutsideWrite(patch) =>
      LogGrows(initial, first, s, Outside(patch), Step(s, a));
  }

  lemma {:induction false} RunKeepsInv(initial: Contexts, first: nat, s: State, actions: seq<Action>)
    requires Inv(initial, first, s)
    ensures Inv(initial, first, Run(s, actions))
    decreases actions
  {
    if actions != [] {
      StepKeepsInv(initial, first, s, actions[0]);
      RunKeepsInv(initial, first, Step(s, actions[0]), actions[1..]);
    }
  }

  // Linearizability

  /** Every request's outcome, and the only log entries that can carry its name. */
  lemma OutcomesMatchLog(initial: Contexts, first: nat, s: State, id: nat)
    requires Inv(initial, first, s) && id in s.requests
    ensures var r := s.requests[id];
            && (r.phase.Committed? <==> exists i: nat :: i < |s.log| && s.log[i] == Tagging(id, r.op))
            && (r.phase.Answered? ==>
                  r.began <= r.phase.position <= |s.log|
                  && IsListing(r.phase.tags, Replay(initial, s.log[..r.phase.position])))
  {
    assert Explained(initial, first, s.log, id, s.requests[id]);
    if i: nat :| i < |s.log| && s.log[i] == Tagging(id, s.requests[id].op) {
      assert Acknowledged(s.requests, s.log, i);
    }
  }

  /** For every interleaving: the contexts are the replay of the accepted writes in metageneration
      order as atomic operations; a Put or Delete was accepted exactly when its client was told so,
      and then once; and a Get answered with the tags of some moment since its arrival. That the
      moment is not after its answer either is in `EffectInLifetime`. */
  lemma Linearizable(initial: Contexts, first: nat, actions: seq<Action>)
    ensures var s := Run(Init(initial, first), actions);
            && s.contexts == Replay(initial, s.log)
            && s.metageneration == first + |s.log|
            && (forall i: nat, j: nat :: i < j < |s.log| && s.log[i].Tagging? && s.log[j].Tagging? ==> s.log[i].id != s.log[j].id)
            && (forall id <- s.requests :: var r := s.requests[id];
                  && (r.phase.Committed? <==> exists i: nat :: i < |s.log| && s.log[i] == Tagging(id, r.op))
                  && (r.phase.Answered? ==>
                        r.began <= r.phase.position <= |s.log|
                        && IsListing(r.phase.tags, Replay(initial, s.log[..r.phase.position]))))
  {
    RunKeepsInv(initial, first, Init(initial, first), actions);
    var s := Run(Init(initial, first), actions);
    forall i: nat, j: nat | i < j < |s.log| && s.log[i].Tagging? && s.log[j].Tagging?
      ensures s.log[i].id != s.log[j].id
    {
      assert Acknowledged(s.requests, s.log, i) && Acknowledged(s.requests, s.log, j);
    }
    forall id <- s.requests {
      OutcomesMatchLog(initial, first, s, id);
    }
  }

  // Progress: every outcome has its cause, and what can be answered is

  /** The actions that can have brought a request to this phase. */
  ghost predicate Caused(id: nat, phase: Phase, actions: seq<Action>) {
    match phase
    case Begun => true
    case HasRead(seen, _) => exists answer :: ReadAttrs(id, seen, answer) in actions
    case Committed(_) => Update(id) in actions
    case Refused => Update(id) in actions || UpdateFails(id) in actions
    case NotFound => ReadFails(id) in actions
    case Answered(tags, _) => exists attrs :: ReadAttrs(id, attrs, tags) in actions
  }

  lemma CausedGrows(id: nat, phase: Phase, a: Action, actions: seq<Action>)
    requires Caused(id, phase, actions) || Caused(id, phase, [a])
    ensures Caused(id, phase, [a] + actions)
  {
    assert forall b :: b in [a] + actions <==> b == a || b in actions;
  }

  lemma StepCaused(s: State, a: Action, id: nat)
    requires id in Step(s, a).requests
    ensures (id in s.requests && Step(s, a).requests[id].phase == s.requests[id].phase)
            || Caused(id, Step(s, a).requests[id].phase, [a])
  {
    assert a in [a];
    if a.ReadAttrs? {
      assert ReadAttrs(a.id, a.attrs, a.answer) in [a];
    }
  }

  lemma {:induction false} RunCaused(s: State, actions: seq<Action>, id: nat)
    requires id in Run(s, actions).requests
    ensures (id in s.requests && Run(s, actions).requests[id].phase == s.requests[id].phase)
            || Caused(id, Run(s, actions).requests[id].phase, actions)
    decreases actions
  {
    if actions != [] {
      var a, s' := actions[0], Step(s, actions[0]);
      var phase := Run(s, actions).requests[id].phase;
      RunCaused(s', actions[1..], id);
      assert actions == [a] + actions[1..];
      if id in s'.requests && phase == s'.requests[id].phase {
        StepCaused(s, a, id);
      }
      if Caused(id, phase, actions[1..]) || Caused(id, phase, [a]) {
        CausedGrows(id, phase, a, actions[1..]);
      }
    }
  }

  /** Over every run, no client is told what did not happen to it: it gets a 404 only if its own read
      failed, a 500 only if its own update failed or came too late, and a listing or a success only
      from a read or an update of its own. */
  lemma OutcomeHasCause(initial: Contexts, first: nat, actions: seq<Action>, id: nat)
    requires id in Run(Init(initial, first), actions).requests
    ensures Caused(id, Run(Init(initial, first), actions).requests[id].phase, actions)
  {
    RunCaused(Init(initial, first), actions, id);
  }

  /** And what can happen does, what can be answered is: a request begins when the log is this long; a
      write from outside is logged and patches the contexts; a read that reaches the object answers a Get with the listing it
      was given and lets a Put or Delete go on; one that fails answers 404; an update that reaches the
      object is decided (`UpdateOutcome`), one that fails is refused. */
  lemma RequestProceeds(s: State, id: nat, op: Op, attrs: Option<Contexts>, answer: seq<Tag>, patch: Patch)
    ensures id !in s.requests ==> Step(s, Begin(id, op)).requests == s.requests[id := Request(op, Begun, |s.log|)]
    ensures Step(s, OutsideWrite(Some(patch))).contexts == ApplyPatch(s.contexts, patch)
    ensures Step(s, OutsideWrite(Some(patch))).log == s.log + [Outside(Some(patch))]
    ensures Unread(s, id) && Present(attrs) == s.contexts && s.requests[id].op.Get? && IsListing(answer, s.contexts) ==>
              Step(s, ReadAttrs(id, attrs, answer)).requests[id].phase == Answered(answer, |s.log|)
    ensures Unread(s, id) && Present(attrs) == s.contexts && !s.requests[id].op.Get? ==>
              Step(s, ReadAttrs(id, attrs, answer)).requests[id].phase == HasRead(attrs, s.metageneration)
    ensures Unread(s, id) ==> Step(s, ReadFails(id)).requests[id].phase == NotFound
    ensures Unsent(s, id) ==> Step(s, UpdateFails(id)).requests[id].phase == Refused
    ensures Unsent(s, id) ==> Settled(Step(s, Update(id)).requests[id].phase)
  {
  }

  // How a request goes on

  predicate Settled(p: Phase) {
    !p.Begun? && !p.HasRead?
  }

  /** What a pending update can turn into: its place in the log is fixed by what it read. */
  predicate Follows(first: nat, before: Phase, after: Phase) {
    before.HasRead? ==>
      after == before || after.Refused? || (after.Committed? && after.position == before.metageneration - first)
  }

  /** What later steps cannot change: an outcome, the arrival of a request, and the log so far. */
  ghost predicate Later(first: nat, s: State, s': State) {
    && s.log <= s'.log
    && forall id <- s.requests ::
         && id in s'.requests
         && s'.requests[id].op == s.requests[id].op
         && s'.requests[id].began == s.requests[id].began
         && (Settled(s.requests[id].phase) ==> s'.requests[id] == s.requests[id])
         && Follows(first, s.requests[id].phase, s'.requests[id].phase)
  }

  lemma PhaseIsLater(first: nat, s: State, s': State, id: nat, phase: Phase)
    requires id in s.requests && !Settled(s.requests[id].phase) && Follows(first, s.requests[id].phase, phase)
    requires s.log <= s'.log && s'.requests == WithPhase(s, id, phase).requests
    ensures Later(first, s, s')
  {
  }

  lemma StepIsLater(initial: Contexts, first: nat, s: State, a: Action)
    requires Inv(initial, first, s)
    ensures Later(first, s, Step(s, a))
  {
    var s' := Step(s, a);
    if (a.ReadAttrs? || a.ReadFails? || a.Update? || a.UpdateFails?) && s' != s {
      PhaseIsLater(first, s, s', a.id, s'.requests[a.id].phase);
    }
  }

  lemma {:induction false} RunIsLater(initial: Contexts, first: nat, s: State, actions: seq<Action>)
    requires Inv(initial, first, s)
    ensures Later(first, s, Run(s, actions))
    decreases actions
  {
    if actions != [] {
      var s' := Step(s, actions[0]);
      StepIsLater(initial, first, s, actions[0]);
      StepKeepsInv(initial, first, s, actions[0]);
      RunIsLater(initial, first, s', actions[1..]);
    }
  }

  lemma {:induction false} RunConcat(s: State, a: seq<Action>, b: seq<Action>)
    ensures Run(s, a + b) == Run(Run(s, a), b)
    decreases a
  {
    if a == [] {
      assert [] + b == b;
    } else {
      assert (a + b)[0] == a[0] && (a + b)[1..] == a[1..] + b;
      RunConcat(Step(s, a[0]), a[1..], b);
    }
  }

  lemma RunStep(s: State, a: Action)
    ensures Run(s, [a]) == Step(s, a)
  {
    assert [a][1..] == [];
  }

  /** A request takes effect between its arrival and its answer, in one step: whatever happens
      later, its outcome stands. An accepted write is the entry logged by the step that answers it,
      a Get shows the contexts at the step that answers it, and any other answer changed nothing. */
  lemma EffectInLifetime(initial: Contexts, first: nat, before: seq<Action>, op: Op, during: seq<Action>, answer: Action,
                         after: seq<Action>, id: nat)
    requires var arrived := Run(Init(initial, first), before);
             var s := Run(Step(arrived, Begin(id, op)), during);
             && id !in arrived.requests
             && id in s.requests && !Settled(s.requests[id].phase)
             && id in Step(s, answer).requests && Settled(Step(s, answer).requests[id].phase)
    ensures var arrived := Run(Init(initial, first), before);
            var s := Run(Step(arrived, Begin(id, op)), during);
            var answered := Step(s, answer);
            var r := answered.requests[id];
            && id in Run(answered, after).requests && Run(answered, after).requests[id] == r && r.op == op
            && (r.phase.Committed? ==>
                  && |arrived.log| <= r.phase.position == |s.log|
                  && answered.log == s.log + [Tagging(id, op)]
                  && answered.contexts == Effect(s.contexts, Tagging(id, op)))
            && (r.phase.Answered? ==> |arrived.log| <= r.phase.position == |s.log| && IsListing(r.phase.tags, s.contexts))
            && (!r.phase.Committed? ==> answered.log == s.log && answered.contexts == s.contexts)
  {
    var arrived := Run(Init(initial, first), before);
    var begun := Step(arrived, Begin(id, op));
    var s := Run(begun, during);
    RunKeepsInv(initial, first, Init(initial, first), before);
    StepKeepsInv(initial, first, arrived, Begin(id, op));
    RunIsLater(initial, first, begun, during);
    RunKeepsInv(initial, first, begun, during);
    StepKeepsInv(initial, first, s, answer);
    RunIsLater(initial, first, Step(s, answer), after);
    AnswerStep(initial, first, s, answer, id);
  }

  /** What the step that answers a request does. */
  lemma AnswerStep(initial: Contexts, first: nat, s: State, a: Action, id: nat)
    requires Inv(initial, first, s)
    requires id in s.requests && !Settled(s.requests[id].phase) && Settled(Step(s, a).requests[id].phase)
    ensures var s' := Step(s, a);
            var r := s'.requests[id];
            && r.op == s.requests[id].op && r.began == s.requests[id].began
            && (r.phase.Committed? ==>
                  && r.phase.position == |s.log| && s'.log == s.log + [Tagging(id, r.op)]
                  && s'.contexts == Effect(s.contexts, Tagging(id, r.op)))
            && (r.phase.Answered? ==> r.phase.position == |s.log| && IsListing(r.phase.tags, s.contexts))
            && (!r.phase.Committed? ==> s'.log == s.log && s'.contexts == s.contexts)
  {
    if a == Update(id) && s.requests[id].phase.HasRead? && s.requests[id].phase.metageneration == s.metageneration {
      CommitIsAtomic(initial, first, s, id);
    }
  }

  /** The order of the log respects real time: a request that arrives after another was answered is
      ordered after it. Behind a commit it comes strictly later, so that a Get sees the commit;
      behind a Get it sees, or follows, no less of the log than that Get did. */
  lemma RealTimeOrder(initial: Contexts, first: nat, before: seq<Action>, after: seq<Action>, a: nat, b: nat, op: Op)
    requires var s := Run(Init(initial, first), before);
             && a in s.requests && b !in s.requests
             && (s.requests[a].phase.Committed? || s.requests[a].phase.Answered?)
    ensures var s := Run(Init(initial, first), before);
            var s' := Run(s, [Begin(b, op)] + after);
            && a in s'.requests && b in s'.requests
            && s'.requests[a] == s.requests[a]
            && (s'.requests[b].phase.Committed? || s'.requests[b].phase.Answered? ==>
                  && s.requests[a].phase.position <= s'.requests[b].phase.position
                  && (s.requests[a].phase.Committed? ==> s.requests[a].phase.position < s'.requests[b].phase.position))
  {
    var s := Run(Init(initial, first), before);
    RunKeepsInv(initial, first, Init(initial, first), before);
    assert Explained(initial, first, s.log, a, s.requests[a]);
    var begun := Step(s, Begin(b, op));
    RunStep(s, Begin(b, op));
    RunConcat(s, [Begin(b, op)], after);
    StepKeepsInv(initial, first, s, Begin(b, op));
    RunIsLater(initial, first, begun, after);
    RunKeepsInv(initial, first, begun, after);
    var s' := Run(begun, after);
    assert Explained(initial, first, s'.log, b, s'.requests[b]);
  }

  /** No lost update: of two requests that have read the same metageneration, whatever happens
      next, at most one commits. */
  lemma AtMostOneCommits(initial: Contexts, first: nat, before: seq<Action>, after: seq<Action>, a: nat, b: nat)
    requires var s := Run(Init(initial, first), before);
             && a != b && Unsent(s, a) && Unsent(s, b)
             && s.requests[a].phase.metageneration == s.requests[b].phase.metageneration
    ensures var s' := Run(Run(Init(initial, first), before), after);
            && a in s'.requests && b in s'.requests
            && !(s'.requests[a].phase.Committed? && s'.requests[b].phase.Committed?)
  {
    var s := Run(Init(initial, first), before);
    RunKeepsInv(initial, first, Init(initial, first), before);
    RunIsLater(initial, first, s, after);
    RunKeepsInv(initial, first, s, after);
    var s' := Run(s, after);
    assert Follows(first, s.requests[a].phase, s'.requests[a].phase);
    assert Follows(first, s.requests[b].phase, s'.requests[b].phase);
    assert Explained(initial, first, s'.log, a, s'.requests[a]);
    assert Explained(initial, first, s'.log, b, s'.requests[b]);
  }

  /** Progress: an update that reaches GCS is accepted exactly when nothing was accepted since its
      read; otherwise it changes nothing but its own outcome, and the entry in its way is another
      writer's. */
  lemma UpdateOutcome(initial: Contexts, first: nat, actions: seq<Action>, id: nat)
    requires Unsent(Run(Init(initial, first), actions), id)
    ensures var s := Run(Init(initial, first), actions);
            var s' := Step(s, Update(id));
            var readAt := s.requests[id].phase.metageneration - first;
            && 0 <= readAt <= |s.log|
            && (s'.requests[id].phase.Committed? <==> |s.log| == readAt)
            && (s'.requests[id].phase.Committed? ==> s'.contexts == Effect(s.contexts, Tagging(id, s.requests[id].op)))
            && (!s'.requests[id].phase.Committed? ==>
                  && s' == WithPhase(s, id, Refused)
                  && (s.log[readAt].Tagging? ==> s.log[readAt].id != id))
  {
    var s := Run(Init(initial, first), actions);
    RunKeepsInv(initial, first, Init(initial, first), actions);
    assert Explained(initial, first, s.log, id, s.requests[id]);
    PendingNotLogged(initial, first, s, id);
    if s.requests[id].phase.metageneration == s.metageneration {
      CommitIsAtomic(initial, first, s, id);
    }
  }
}
