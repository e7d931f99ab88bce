/** Hot reload of the credential file (pkg/credstore/credstore.go): a file that others rewrite, the
    queue of file-system events, the debounce timer and the store, as a transition system, and the
    `runWatcher` loop itself. The timer is armed or not; how long it takes is not modelled. */
module CredWatcher {
  import opened Wrappers
  import opened CredStore

  datatype FsOp = Create | Write | Remove | Rename | Chmod

  /** An fsnotify event; `base` is the last element of the path. */
  datatype FsEvent = FsEvent(base: string, ops: set<FsOp>)

  /** Events about the file itself, or about the link Kubernetes swaps when it updates a volume. */
  predicate Relevant(base: string, ev: FsEvent) {
    (ev.base == base || ev.base == "..data") && (exists op <- ev.ops :: op != Chmod)
  }

  /** An event that must lead to a reload: the file, or the `..data` link, was created, written,
      removed or renamed. */
  predicate Announces(base: string, ev: FsEvent) {
    (ev.base == base || ev.base == "..data") && ev.ops * {Create, Write, Remove, Rename} != {}
  }

  predicate Pending(base: string, queue: seq<FsEvent>) {
    exists ev <- queue :: Relevant(base, ev)
  }

  /** `LoadFile`; None for a file that cannot be read or parsed. */
  function LoadFile(decode: Decoder, file: Option<string>): Option<Credentials> {
    match file
    case None => None
    case Some(data) => Accepted(decode, data)
  }

  // The watcher

  datatype Watcher = Watcher(armed: bool, store: Credentials, loaded: int, reloads: nat, failures: nat)

  function OnEvent(base: string, w: Watcher, ev: FsEvent): Watcher {
    if Relevant(base, ev) then w.(armed := true) else w
  }

  function OnTimer(decode: Decoder, w: Watcher, file: Option<string>): Watcher {
    match LoadFile(decode, file)
    case Some(m) => w.(armed := false, store := m, loaded := |m|, reloads := w.reloads + 1)
    case None => w.(armed := false, failures := w.failures + 1)
  }

  /** What the select statement of the loop picks next. */
  datatype Select = Done | Event(ev: FsEvent) | EventsClosed | Timer(file: Option<string>) | Error | ErrorsClosed

  /** The loop over a sequence of picks; a timer that is not armed is never picked. */
  function Loop(base: string, decode: Decoder, w: Watcher, selects: seq<Select>): Watcher
    decreases selects
  {
    if selects == [] then w
    else match selects[0]
         case Event(ev) => Loop(base, decode, OnEvent(base, w, ev), selects[1..])
         case Timer(file) => Loop(base, decode, if w.armed then OnTimer(decode, w, file) else w, selects[1..])
         case Error => Loop(base, decode, w, selects[1..])
         case _ => w
  }

  lemma RelevantAnnounces(base: string, ev: FsEvent)
    ensures Relevant(base, ev) <==> Announces(base, ev)
  {
    var changes := {Create, Write, Remove, Rename};
    assert forall op <- ev.ops :: op != Chmod ==> op in ev.ops * changes;
    assert forall op <- ev.ops * changes :: op in ev.ops && op != Chmod;
  }

  /** A change of the file or of the `..data` link, then the timer: the file is loaded, and a valid
      content replaces the map and is counted as a reload, an invalid one as a failure. */
  lemma ChangeIsLoaded(base: string, decode: Decoder, w: Watcher, name: string, ops: set<FsOp>, file: Option<string>)
    requires name == base || name == "..data"
    requires Create in ops || Write in ops || Remove in ops || Rename in ops
    ensures Loop(base, decode, w, [Event(FsEvent(name, ops)), Timer(file)]) ==
            match LoadFile(decode, file)
            case Some(m) => Watcher(false, m, |m|, w.reloads + 1, w.failures)
            case None => Watcher(false, w.store, w.loaded, w.reloads, w.failures + 1)
  {
    var ev, changes := FsEvent(name, ops), {Create, Write, Remove, Rename};
    var op :| op in changes && op in ops;
    assert op in ops * changes;
    RelevantAnnounces(base, ev);
    var armed := w.(armed := true);
    LoopStep(base, decode, w, Event(ev), [Timer(file)]);
    LoopStep(base, decode, armed, Timer(file), []);
  }

  /** Any other event changes nothing: another file, or a change of mode only. */
  lemma OtherEventIgnored(base: string, decode: Decoder, w: Watcher, name: string, ops: set<FsOp>, rest: seq<Select>)
    requires (name != base && name != "..data") || ops <= {Chmod}
    ensures Loop(base, decode, w, [Event(FsEvent(name, ops))] + rest) == Loop(base, decode, w, rest)
  {
    var ev := FsEvent(name, ops);
    RelevantAnnounces(base, ev);
    assert ops <= {Chmod} ==> ops * {Create, Write, Remove, Rename} == {};
    LoopStep(base, decode, w, Event(ev), rest);
  }

  /** An idle timer does not fire, a watcher error does not matter, and the three ways to end the loop
      end it whatever is still to come. */
  lemma LoopControl(base: string, decode: Decoder, w: Watcher, file: Option<string>, rest: seq<Select>)
    ensures !w.armed ==> Loop(base, decode, w, [Timer(file)] + rest) == Loop(base, decode, w, rest)
    ensures Loop(base, decode, w, [Error] + rest) == Loop(base, decode, w, rest)
    ensures forall end <- {Done, EventsClosed, ErrorsClosed} :: Loop(base, decode, w, [end] + rest) == w
  {
    LoopStep(base, decode, w, Timer(file), rest);
    LoopStep(base, decode, w, Error, rest);
  }

  lemma LoopStep(base: string, decode: Decoder, w: Watcher, select: Select, rest: seq<Select>)
    ensures Loop(base, decode, w, [select] + rest) ==
            match select
            case Event(ev) => Loop(base, decode, OnEvent(base, w, ev), rest)
            case Timer(file) => Loop(base, decode, if w.armed then OnTimer(decode, w, file) else w, rest)
            case Error => Loop(base, decode, w, rest)
            case _ => w
  {
    assert ([select] + rest)[1..] == rest;
  }

  // One reload: LoadFile, then Replace if that succeeds
  method Reload(store: Store, decode: Decoder, file: Option<string>) returns (ok: bool)
    modifies store, store.loaded
    ensures ok <==> LoadFile(decode, file).Some?
    ensures ok ==> fresh(store.v) && store.Contents() == LoadFile(decode, file).value
                   && store.loaded.value == |store.Contents()|
    ensures !ok ==> store.v == old(store.v) && store.Contents() == old(store.Contents())
                    && store.loaded.value == old(store.loaded.value)
  {
    if file.None? {
      return false;
    }
    var parsed := Parse(decode, file.value);
    if parsed.Failure? {
      return false;
    }
    var m := new GoMap.From(parsed.value);
    store.Replace(m);
    return true;
  }

  /** `runWatcher`. */
  method RunWatcher(store: Store, base: string, decode: Decoder, selects: seq<Select>)
    returns (pending: bool, reloads: nat, failures: nat)
    modifies store, store.loaded
    ensures Watcher(pending, store.Contents(), store.loaded.value, reloads, failures)
         == Loop(base, decode, Watcher(false, old(store.Contents()), old(store.loaded.value), 0, 0), selects)
  {
    pending, reloads, failures := false, 0, 0;
    for i := 0 to |selects|
      invariant Loop(base, decode, Watcher(false, old(store.Contents()), old(store.loaded.value), 0, 0), selects)
             == Loop(base, decode, Watcher(pending, store.Contents(), store.loaded.value, reloads, failures), selects[i..])
      invariant store.v == old(store.v) || fresh(store.v)
    {
      assert selects[i..][1..] == selects[i + 1..];
      match selects[i]
      case Done =>
        return;
      case Event(ev) =>
        if ev.base != base && ev.base != "..data" {
          continue;
        }
        RelevantAnnounces(base, ev);
        if ev.ops * {Create, Write, Remove, Rename} == {} {
          continue;
        }
        pending := true;
      case EventsClosed =>
        return;
      case Timer(file) =>
        if !pending {
          continue;
        }
        pending := false;
        var ok := Reload(store, decode, file);
        if !ok {
          failures := failures + 1;
          continue;
        }
        reloads := reloads + 1;
      case Error =>
      case ErrorsClosed =>
        return;
    }
  }

  // The watcher among its environment

  /** `held` is every content the file has had, `snapshots` every map the store has held. */
  datatype World = World(
    file: Option<string>,
    queue: seq<FsEvent>,
    watcher: Watcher,
    running: bool,
    held: seq<string>,
    snapshots: seq<Credentials>)

  /** A write puts a new content in place (or removes the file) and raises events, one that announces
      it among them; a file written in pieces is several writes. */
  datatype Action =
    | WriteFile(content: Option<string>, events: seq<FsEvent>)
    | Noise(events: seq<FsEvent>)
    | Receive
    | Fire
    | Stop

  /** The process starts with the file loaded and the watcher running. */
  function Start(content: string, m: Credentials): World {
    World(Some(content), [], Watcher(false, m, |m|, 0, 0), true, [content], [m])
  }

  function WithWatcher(s: World, w: Watcher): World {
    s.(watcher := w, snapshots := if w.store == s.watcher.store then s.snapshots else s.snapshots + [w.store])
  }

  predicate Effective(s: World, a: Action) {
    s.running && ((a.Receive? && s.queue != []) || (a.Fire? && s.watcher.armed))
  }

  /** One step; an action that cannot happen leaves the world unchanged. */
  function Step(base: string, decode: Decoder, s: World, a: Action): World {
    match a
    case WriteFile(content, events) =>
      if forall ev <- events :: !Announces(base, ev) then s
      else s.(file := content, queue := s.queue + events,
              held := if content.Some? then s.held + [content.value] else s.held)
    case Noise(events) => s.(queue := s.queue + events)
    case Receive =>
      if Effective(s, a) then WithWatcher(s.(queue := s.queue[1..]), OnEvent(base, s.watcher, s.queue[0])) else s
    case Fire => if Effective(s, a) then WithWatcher(s, OnTimer(decode, s.watcher, s.file)) else s
    case Stop => s.(running := false)
  }

  function Run(base: string, decode: Decoder, s: World, actions: seq<Action>): World
    decreases actions
  {
    if actions == [] then s else Run(base, decode, Step(base, decode, s, actions[0]), actions[1..])
  }

  /** The world moves: a process starts idle and running on its file, a write that is announced puts
      the content there and queues its events, an event is received and a timer fires when there is one,
      and stopping is for good. */
  lemma WorldMoves(base: string, decode: Decoder, s: World, content: Option<string>, ev: FsEvent, data: string, m: Credentials)
    ensures var start := Start(data, m);
            && start.running && !start.watcher.armed && start.queue == [] && start.file == Some(data)
            && start.held == [data] && start.snapshots == [m]
            && start.watcher.store == m && start.watcher.loaded == |m| && start.watcher.reloads == 0 && start.watcher.failures == 0
    ensures Announces(base, ev) ==>
              var s' := Step(base, decode, s, WriteFile(content, [ev]));
              s'.file == content && s'.queue == s.queue + [ev] && s'.watcher == s.watcher && s'.running == s.running
    ensures Step(base, decode, s, Noise([ev])).queue == s.queue + [ev]
    ensures s.running && s.queue != [] ==>
              var s' := Step(base, decode, s, Receive);
              s'.queue == s.queue[1..] && s'.watcher.armed == (s.watcher.armed || Announces(base, s.queue[0]))
    ensures s.running && s.watcher.armed && LoadFile(decode, s.file) == Some(m) ==>
              var s' := Step(base, decode, s, Fire);
              s'.watcher.store == m && !s'.watcher.armed && s'.watcher.reloads == s.watcher.reloads + 1
              && s'.snapshots == if m == s.watcher.store then s.snapshots else s.snapshots + [m]
    ensures !Step(base, decode, s, Stop).running
  {
    if s.queue != [] {
      RelevantAnnounces(base, s.queue[0]);
    }
  }

  // The loop in a run of the world

  /** What the loop picks when the world takes a step; nothing for a step of the environment. */
  function Pick(s: World, a: Action): seq<Select> {
    if a.Receive? && Effective(s, a) then [Event(s.queue[0])]
    else if a.Fire? && Effective(s, a) then [Timer(s.file)]
    else if a.Stop? && s.running then [Done]
    else []
  }

  function Picks(base: string, decode: Decoder, s: World, actions: seq<Action>): seq<Select>
    decreases actions
  {
    if actions == [] then []
    else Pick(s, actions[0]) + Picks(base, decode, Step(base, decode, s, actions[0]), actions[1..])
  }

  lemma StoppedPicksNothing(base: string, decode: Decoder, s: World, actions: seq<Action>)
    requires !s.running
    ensures Picks(base, decode, s, actions) == [] && Run(base, decode, s, actions).watcher == s.watcher
    decreases actions
  {
  }

  /** The watcher of the world is the loop on the picks it makes there: the results below about all
      runs of the world are about `RunWatcher`. */
  lemma {:induction false} WorldRunsLoop(base: string, decode: Decoder, s: World, actions: seq<Action>)
    ensures Run(base, decode, s, actions).watcher == Loop(base, decode, s.watcher, Picks(base, decode, s, actions))
    decreases actions
  {
    if !s.running {
      StoppedPicksNothing(base, decode, s, actions);
    } else if actions != [] {
      var a, s' := actions[0], Step(base, decode, s, actions[0]);
      var rest := Picks(base, decode, s', actions[1..]);
      WorldRunsLoop(base, decode, s', actions[1..]);
      if a.Stop? {
        StoppedPicksNothing(base, decode, s', actions[1..]);
      }
      assert Pick(s, a) == [] ==> Pick(s, a) + rest == rest;
      assert Pick(s, a) != [] ==> (Pick(s, a) + rest)[1..] == rest;
    }
  }

  // Invariants

  /** A snapshot is a payload that was in the file and was accepted. */
  ghost predicate FromFile(decode: Decoder, held: seq<string>, m: Credentials) {
    exists data <- held :: Accepted(decode, data) == Some(m)
  }

  ghost predicate Sound(decode: Decoder, s: World) {
    && s.watcher.loaded == |s.watcher.store|
    && |s.snapshots| > 0 && s.snapshots[|s.snapshots| - 1] == s.watcher.store
    && (s.file.Some? ==> s.file.value in s.held)
    && (forall m <- s.snapshots :: FromFile(decode, s.held, m))
  }

  /** A valid file that differs from the store has a reload on its way. */
  ghost predicate Live(base: string, decode: Decoder, s: World) {
    s.running && LoadFile(decode, s.file).Some? && LoadFile(decode, s.file).value != s.watcher.store ==>
      s.watcher.armed || Pending(base, s.queue)
  }

  ghost predicate Inv(base: string, decode: Decoder, s: World) {
    Sound(decode, s) && Live(base, decode, s)
  }

  lemma FromFileGrows(decode: Decoder, held: seq<string>, more: seq<string>, m: Credentials)
    requires FromFile(decode, held, m)
    ensures FromFile(decode, held + more, m)
  {
  }

  lemma StepKeepsSound(base: string, decode: Decoder, s: World, a: Action)
    requires Sound(decode, s)
    ensures Sound(decode, Step(base, decode, s, a))
  {
    var s' := Step(base, decode, s, a);
    match a
    case WriteFile(content, events) =>
      if content.Some? && s' != s {
        forall m <- s.snapshots {
          FromFileGrows(decode, s.held, [content.value], m);
        }
      }
    case Fire =>
      if s'.watcher.store != s.watcher.store {
        assert FromFile(decode, s.held, s'.watcher.store);
        assert forall m <- s'.snapshots :: m in s.snapshots || m == s'.watcher.store;
      }
    case _ =>
  }

  lemma StepKeepsLive(base: string, decode: Decoder, s: World, a: Action)
    requires Live(base, decode, s)
    ensures Live(base, decode, Step(base, decode, s, a))
  {
    if a.WriteFile? {
      forall ev <- a.events {
        RelevantAnnounces(base, ev);
      }
    }
  }

  lemma {:induction false} RunKeepsInv(base: string, decode: Decoder, s: World, actions: seq<Action>)
    requires Inv(base, decode, s)
    ensures Inv(base, decode, Run(base, decode, s, actions))
    decreases actions
  {
    if actions != [] {
      StepKeepsSound(base, decode, s, actions[0]);
      StepKeepsLive(base, decode, s, actions[0]);
      RunKeepsInv(base, decode, Step(base, decode, s, actions[0]), actions[1..]);
    }
  }

  lemma StartsInv(base: string, decode: Decoder, content: string, m: Credentials)
    requires Accepted(decode, content) == Some(m)
    ensures Inv(base, decode, Start(content, m))
  {
  }

  /** Over every run of a process started from a valid file, every map the store ever held is a
      payload that stood in the file and was accepted: it is not empty and has no blank access key
      or secret; and the gauge shows the size of the current one. */
  lemma SnapshotsValid(base: string, decode: Decoder, content: string, m: Credentials, actions: seq<Action>)
    requires Accepted(decode, content) == Some(m)
    ensures var s := Run(base, decode, Start(content, m), actions);
            && s.watcher.store in s.snapshots
            && s.watcher.loaded == |s.watcher.store|
            && forall snapshot <- s.snapshots :: FromFile(decode, s.held, snapshot) && Acceptable(snapshot)
  {
    StartsInv(base, decode, content, m);
    RunKeepsInv(base, decode, Start(content, m), actions);
  }

  predicate Malformed(decode: Decoder, a: Action) {
    a.WriteFile? ==> LoadFile(decode, a.content).None?
  }

  /** From a moment when the file is no valid payload, and as long as only invalid ones are written,
      the store keeps its map through any number of reloads. */
  lemma {:induction false} MalformedReloadsKeepStore(base: string, decode: Decoder, s: World, actions: seq<Action>)
    requires LoadFile(decode, s.file).None?
    requires forall a <- actions :: Malformed(decode, a)
    ensures var s' := Run(base, decode, s, actions);
            s'.watcher.store == s.watcher.store && s'.snapshots == s.snapshots && s'.watcher.reloads == s.watcher.reloads
    decreases actions
  {
    if actions != [] {
      assert actions[0] in actions && forall a <- actions[1..] :: a in actions;
      MalformedReloadsKeepStore(base, decode, Step(base, decode, s, actions[0]), actions[1..]);
    }
  }

  // Convergence

  /** How many steps the watcher can still take if nothing else happens. */
  function Work(s: World): nat {
    2 * |s.queue| + if s.watcher.armed then 1 else 0
  }

  predicate Quiet(s: World) {
    s.queue == [] && !s.watcher.armed
  }

  predicate AllEffective(base: string, decode: Decoder, s: World, actions: seq<Action>)
    decreases actions
  {
    actions != [] ==> Effective(s, actions[0]) && AllEffective(base, decode, Step(base, decode, s, actions[0]), actions[1..])
  }

  lemma {:induction false} WorkRunsOut(base: string, decode: Decoder, s: World, actions: seq<Action>)
    requires s.running && AllEffective(base, decode, s, actions)
    ensures var s' := Run(base, decode, s, actions);
            && |actions| + Work(s') <= Work(s)
            && s'.running && s'.file == s.file
            && (LoadFile(decode, s.file).None? ==> s'.watcher.store == s.watcher.store)
    decreases actions
  {
    if actions != [] {
      WorkRunsOut(base, decode, Step(base, decode, s, actions[0]), actions[1..]);
    }
  }

  /** Convergence: take any run, and then let the watcher alone go on in any order, for as long as it
      has something to do. That is at most `Work` steps, and when nothing is left to do the store
      holds what is in the file, or what it held before if the file is not valid. */
  lemma {:induction false} Converges(base: string, decode: Decoder, content: string, m: Credentials, before: seq<Action>, alone: seq<Action>)
    requires Accepted(decode, content) == Some(m)
    requires var s := Run(base, decode, Start(content, m), before);
             s.running && AllEffective(base, decode, s, alone)
    ensures var s := Run(base, decode, Start(content, m), before);
            var s' := Run(base, decode, s, alone);
            && |alone| <= Work(s)
            && (Quiet(s') <==> !Effective(s', Receive) && !Effective(s', Fire))
            && (Quiet(s') ==> s'.watcher.store == LoadFile(decode, s.file).GetOr(s.watcher.store))
  {
    var s := Run(base, decode, Start(content, m), before);
    StartsInv(base, decode, content, m);
    RunKeepsInv(base, decode, Start(content, m), before);
    RunKeepsInv(base, decode, s, alone);
    WorkRunsOut(base, decode, s, alone);
  }

  /** `runWatcher` itself in such a run: it leaves in the store what the world says, so once writes
      have stopped and the watcher has nothing left to do, the content of a valid file. */
  method WatchFile(store: Store, base: string, decode: Decoder, content: string, before: seq<Action>, alone: seq<Action>)
    requires Accepted(decode, content).Some?
    requires store.Contents() == Accepted(decode, content).value && store.loaded.value == |store.Contents()|
    requires var s := Run(base, decode, Start(content, store.Contents()), before);
             s.running && AllEffective(base, decode, s, alone)
    modifies store, store.loaded
    ensures var s := Run(base, decode, Start(content, old(store.Contents())), before);
            var s' := Run(base, decode, s, alone);
            && store.Contents() == s'.watcher.store
            && Acceptable(store.Contents()) && store.loaded.value == |store.Contents()|
            && (Quiet(s') && LoadFile(decode, s.file).Some? ==> store.Contents() == LoadFile(decode, s.file).value)
  {
    ghost var m := store.Contents();
    var start := Start(content, Accepted(decode, content).value);
    RunConcat(base, decode, start, before, alone);
    SnapshotsValid(base, decode, content, m, before + alone);
    Converges(base, decode, content, m, before, alone);
    WorldRunsLoop(base, decode, start, before + alone);
    var _, _, _ := RunWatcher(store, base, decode, Picks(base, decode, start, before + alone));
  }

  lemma {:induction false} RunConcat(base: string, decode: Decoder, s: World, a: seq<Action>, b: seq<Action>)
    ensures Run(base, decode, s, a + b) == Run(base, decode, Run(base, decode, s, a), b)
    decreases a
  {
    if a == [] {
      assert [] + b == b;
    } else {
      assert (a + b)[0] == a[0] && (a + b)[1..] == a[1..] + b;
      RunConcat(base, decode, Step(base, decode, s, a[0]), a[1..], b);
    }
  }
}
