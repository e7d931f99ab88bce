/** The three tagging handlers step by step (main.go), run against an object that outside writers
    may change between the handler's read and its update. Each handler does to the object, and
    tells its client, what the protocol of `TaggingProtocol` says for that interleaving. */
module TaggingHandlers {
  import opened Wrappers
  import opened TaggingTranslate
  import opened TaggingProtocol

  /** `Contexts` of the attributes GCS returns: nil when there are none. */
  function Attributes(contexts: Contexts): Option<Contexts> {
    if contexts == map[] then None else Some(contexts)
  }

  function AfterOutside(contexts: Contexts, writes: seq<Option<Patch>>): Contexts
    decreases writes
  {
    if writes == [] then contexts
    else AfterOutside(Effect(contexts, Outside(writes[0])), writes[1..])
  }

  /** One generation of an object, as far as tagging is concerned. */
  class GcsObject {
    var present: bool
    var contexts: Contexts
    var metageneration: nat

    constructor (contexts: Contexts)
      ensures present && this.contexts == contexts && metageneration == 1
    {
      present, this.contexts, metageneration := true, contexts, 1;
    }

    // obj.Attrs
    method Attrs() returns (found: bool, attrs: Option<Contexts>, seen: nat)
      ensures found == present && seen == metageneration && attrs == Attributes(contexts)
    {
      return present, if contexts == map[] then None else Some(contexts), metageneration;
    }

    // obj.If(MetagenerationMatch).Update
    method UpdateIf(expected: nat, patch: Patch) returns (ok: bool)
      modifies this
      ensures present == old(present)
      ensures ok <==> old(present) && old(metageneration) == expected
      ensures contexts == if ok then ApplyPatch(old(contexts), patch) else old(contexts)
      ensures metageneration == old(metageneration) + if ok then 1 else 0
    {
      ok := present && metageneration == expected;
      if ok {
        contexts := ApplyPatch(contexts, patch);
        metageneration := metageneration + 1;
      }
    }

    // The writes others get in at this point
    method Interfere(writes: seq<Option<Patch>>)
      modifies this
      ensures present == old(present)
      ensures contexts == AfterOutside(old(contexts), writes)
      ensures metageneration == old(metageneration) + |writes|
    {
      for i := 0 to |writes|
        invariant present == old(present) && metageneration == old(metageneration) + i
        invariant AfterOutside(contexts, writes[i..]) == AfterOutside(old(contexts), writes)
      {
        assert writes[i..][1..] == writes[i + 1..];
        if writes[i].Some? {
          contexts := ApplyPatch(contexts, writes[i].value);
        }
        metageneration := metageneration + 1;
      }
    }
  }

  // The same interleaving as a run of the protocol, with request 0 for the handler's own

  function OutsideActions(writes: seq<Option<Patch>>): seq<Action> {
    if writes == [] then [] else [OutsideWrite(writes[0])] + OutsideActions(writes[1..])
  }

  ghost function HandlerRun(contexts: Contexts, metageneration: nat, op: Op, writes: seq<Option<Patch>>): State {
    Run(Init(contexts, metageneration),
        [Begin(0, op), ReadAttrs(0, Attributes(contexts), [])] + OutsideActions(writes) + [Update(0)])
  }

  function Status(op: Op, phase: Phase): int {
    match phase
    case Committed(_) => if op.Delete? then 204 else 200
    case Answered(_, _) => 200
    case NotFound => 404
    case _ => 500
  }

  lemma {:induction false} RunOutside(s: State, writes: seq<Option<Patch>>)
    ensures var s' := Run(s, OutsideActions(writes));
            && s'.contexts == AfterOutside(s.contexts, writes)
            && s'.metageneration == s.metageneration + |writes|
            && s'.requests == s.requests
    decreases writes
  {
    if writes != [] {
      var a := OutsideActions(writes);
      assert a[0] == OutsideWrite(writes[0]) && a[1..] == OutsideActions(writes[1..]);
      RunOutside(Step(s, a[0]), writes[1..]);
    }
  }

  lemma HandlerRunIs(contexts: Contexts, metageneration: nat, op: Op, writes: seq<Option<Patch>>)
    requires !op.Get?
    ensures var s := HandlerRun(contexts, metageneration, op, writes);
            && 0 in s.requests
            && (s.requests[0].phase.Committed? <==> writes == [])
            && Status(op, s.requests[0].phase) == (if writes != [] then 500 else if op.Delete? then 204 else 200)
            && s.contexts == (if writes == [] then ApplyPatch(contexts, SentPatch(op, Attributes(contexts)))
                              else AfterOutside(contexts, writes))
            && s.metageneration == metageneration + if writes == [] then 1 else |writes|
  {
    var s0 := Init(contexts, metageneration);
    var begin, read := Begin(0, op), ReadAttrs(0, Attributes(contexts), []);
    RunConcat(s0, [begin, read] + OutsideActions(writes), [Update(0)]);
    RunConcat(s0, [begin, read], OutsideActions(writes));
    RunConcat(s0, [begin], [read]);
    assert [begin, read] == [begin] + [read];
    RunStep(s0, begin);
    RunStep(Step(s0, begin), read);
    var s2 := Step(Step(s0, begin), read);
    assert Present(Attributes(contexts)) == contexts;
    assert s2.requests[0].phase == HasRead(Attributes(contexts), metageneration);
    RunOutside(s2, writes);
    RunStep(Run(s2, OutsideActions(writes)), Update(0));
  }

  /** The run of a Get that nobody disturbs, or of any request whose read fails. */
  ghost function ReadRun(contexts: Contexts, metageneration: nat, op: Op, found: bool, answer: seq<Tag>): State {
    Run(Init(contexts, metageneration),
        [Begin(0, op), if found then ReadAttrs(0, Attributes(contexts), answer) else ReadFails(0)])
  }

  lemma ReadRunIs(contexts: Contexts, metageneration: nat, op: Op, found: bool, answer: seq<Tag>)
    requires found ==> op.Get? && IsListing(answer, contexts)
    ensures var s := ReadRun(contexts, metageneration, op, found, answer);
            && 0 in s.requests && s.contexts == contexts && s.metageneration == metageneration
            && s.requests[0].phase == if found then Answered(answer, 0) else NotFound
  {
    var s0 := Init(contexts, metageneration);
    var read := if found then ReadAttrs(0, Attributes(contexts), answer) else ReadFails(0);
    RunConcat(s0, [Begin(0, op)], [read]);
    assert [Begin(0, op), read] == [Begin(0, op)] + [read];
    RunStep(s0, Begin(0, op));
    var s1 := Step(s0, Begin(0, op));
    RunStep(s1, read);
    assert Present(Attributes(contexts)) == contexts;
    RequestProceeds(s1, 0, op, Attributes(contexts), answer, map[]);
  }

  /** `handlePutObjectTagging` after decoding. */
  method HandlePutObjectTagging(obj: GcsObject, tags: seq<Tag>, writes: seq<Option<Patch>>)
    returns (status: int)
    modifies obj
    ensures obj.present == old(obj.present)
    ensures !old(obj.present) ==>
              var s := ReadRun(old(obj.contexts), old(obj.metageneration), Put(tags), false, []);
              && 0 in s.requests && status == Status(Put(tags), s.requests[0].phase) == 404
              && obj.contexts == s.contexts == old(obj.contexts)
              && obj.metageneration == s.metageneration == old(obj.metageneration)
    ensures old(obj.present) ==>
              var s := HandlerRun(old(obj.contexts), old(obj.metageneration), Put(tags), writes);
              && 0 in s.requests && status == Status(Put(tags), s.requests[0].phase)
              && obj.contexts == s.contexts && obj.metageneration == s.metageneration
    ensures status == 200 <==> old(obj.present) && writes == []
    ensures status == 200 ==> obj.contexts == TagMap(tags)
    ensures status == 500 ==> obj.contexts == AfterOutside(old(obj.contexts), writes)
  {
    var found, attrs, seen := obj.Attrs();
    if !found {
      ReadRunIs(obj.contexts, obj.metageneration, Put(tags), false, []);
      return 404;
    }
    HandlerRunIs(obj.contexts, obj.metageneration, Put(tags), writes);
    PatchReplaces(tags, attrs);
    var newContexts := TranslateS3ToGcsContexts(tags, attrs);
    obj.Interfere(writes);
    var ok := obj.UpdateIf(seen, newContexts);
    if !ok {
      return 500;
    }
    return 200;
  }

  /** `handleDeleteObjectTagging`: the empty patch clears every context. */
  method HandleDeleteObjectTagging(obj: GcsObject, writes: seq<Option<Patch>>)
    returns (status: int)
    modifies obj
    ensures obj.present == old(obj.present)
    ensures !old(obj.present) ==>
              var s := ReadRun(old(obj.contexts), old(obj.metageneration), Delete, false, []);
              && 0 in s.requests && status == Status(Delete, s.requests[0].phase) == 404
              && obj.contexts == s.contexts == old(obj.contexts)
              && obj.metageneration == s.metageneration == old(obj.metageneration)
    ensures old(obj.present) ==>
              var s := HandlerRun(old(obj.contexts), old(obj.metageneration), Delete, writes);
              && 0 in s.requests && status == Status(Delete, s.requests[0].phase)
              && obj.contexts == s.contexts && obj.metageneration == s.metageneration
    ensures status == 204 <==> old(obj.present) && writes == []
    ensures status == 204 ==> obj.contexts == map[]
    ensures status == 500 ==> obj.contexts == AfterOutside(old(obj.contexts), writes)
  {
    var found, attrs, seen := obj.Attrs();
    if !found {
      ReadRunIs(obj.contexts, obj.metageneration, Delete, false, []);
      return 404;
    }
    HandlerRunIs(obj.contexts, obj.metageneration, Delete, writes);
    obj.Interfere(writes);
    var ok := obj.UpdateIf(seen, map[]);
    if !ok {
      return 500;
    }
    return 204;
  }

  /** `handleGetObjectTagging`. */
  method HandleGetObjectTagging(obj: GcsObject) returns (status: int, tags: seq<Tag>)
    ensures status == if obj.present then 200 else 404
    ensures status == 200 ==> IsListing(tags, obj.contexts)
    ensures var s := ReadRun(obj.contexts, obj.metageneration, Get, obj.present, tags);
            && 0 in s.requests && status == Status(Get, s.requests[0].phase)
            && (status == 200 ==> s.requests[0].phase == Answered(tags, 0))
  {
    var found, attrs, seen := obj.Attrs();
    if !found {
      ReadRunIs(obj.contexts, obj.metageneration, Get, false, []);
      return 404, [];
    }
    tags := TranslateGcsContextsToS3Tagging(attrs);
    ReadRunIs(obj.contexts, obj.metageneration, Get, true, tags);
    return 200, tags;
  }
}
