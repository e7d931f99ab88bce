/** The metrics middleware (pkg/metrics/metrics.go): the response writer that captures the status,
    and the accounting of requests that start, return and panic in any interleaving. */
module MetricsMiddleware {
  import opened Wrappers

  // Response writers

  /** What a handler does to its writer; `accepted` is how many bytes the connection took. */
  datatype Call = WriteHeader(code: int) | Write(accepted: nat) | Flush

  /** Informational codes announce a later response; 101 ends the exchange and is final. */
  predicate Informational(code: int) {
    100 <= code <= 199 && code != 101
  }

  /** A status that ends the header; codes outside 100 to 999 make net/http panic. */
  predicate FinalCode(code: int) {
    100 <= code <= 999 && !Informational(code)
  }

  /** The connection: the first final status is the effective one. `panicked` is whether a header
      with an impossible code has ended the handler. */
  datatype Wire = Wire(informational: seq<int>, final: Option<int>, panicked: bool)

  const UNTOUCHED := Wire([], None, false)

  function OnWire(w: Wire, call: Call): Wire {
    if w.final.Some? then w
    else match call
         case WriteHeader(code) =>
           if FinalCode(code) then w.(final := Some(code))
           else if Informational(code) then w.(informational := w.informational + [code])
           else w.(panicked := true)
         case _ => w.(final := Some(200))   // an implicit header
  }

  datatype Counting = Counting(status: int, bytes: nat, wroteHeader: bool, wire: Wire)

  const FRESH := Counting(200, 0, false, UNTOUCHED)

  /** The counting writer passes only the first header on, and does not notice the implicit one of a
      Flush. */
  function OnCounting(c: Counting, call: Call): Counting {
    match call
    case WriteHeader(code) =>
      if c.wroteHeader then c
      else c.(status := code, wroteHeader := true, wire := OnWire(c.wire, call))
    case Write(accepted) =>
      Counting(if c.wroteHeader then c.status else 200, c.bytes + accepted, true, OnWire(c.wire, call))
    case Flush => c.(wire := OnWire(c.wire, call))
  }

  /** The calls of a handler, as far as it gets. */
  function Through(c: Counting, calls: seq<Call>): Counting
    decreases calls
  {
    if calls == [] || c.wire.panicked then c else Through(OnCounting(c, calls[0]), calls[1..])
  }

  function Direct(w: Wire, calls: seq<Call>): Wire
    decreases calls
  {
    if calls == [] || w.panicked then w else Direct(OnWire(w, calls[0]), calls[1..])
  }

  class ConnectionWriter {
    var wire: Wire
    var body: nat

    constructor ()
      ensures wire == UNTOUCHED && body == 0
    {
      wire, body := UNTOUCHED, 0;
    }

    method WriteHeader(code: int) returns (panics: bool)
      modifies this
      ensures wire == OnWire(old(wire), Call.WriteHeader(code)) && body == old(body)
      ensures panics == (wire.panicked && !old(wire.panicked))
    {
      panics := false;
      if wire.final.None? {
        if code < 100 || code > 999 {
          panics := !wire.panicked;
          wire := wire.(panicked := true);
        } else if code <= 199 && code != 101 {
          wire := wire.(informational := wire.informational + [code]);
        } else {
          wire := wire.(final := Some(code));
        }
      }
    }

    method Write(accepted: nat) returns (n: nat)
      modifies this
      ensures wire == OnWire(old(wire), Call.Write(accepted)) && body == old(body) + accepted && n == accepted
    {
      if wire.final.None? {
        wire := wire.(final := Some(200));
      }
      body := body + accepted;
      n := accepted;
    }

    method Flush()
      modifies this
      ensures wire == OnWire(old(wire), Call.Flush) && body == old(body)
    {
      if wire.final.None? {
        wire := wire.(final := Some(200));
      }
    }
  }

  // countingResponseWriter
  class CountingResponseWriter {
    const inner: ConnectionWriter
    var status: int
    var bytes: nat
    var wroteHeader: bool

    ghost function State(): Counting
      reads this, inner
    {
      Counting(status, bytes, wroteHeader, inner.wire)
    }

    constructor (inner: ConnectionWriter)
      requires inner.wire == UNTOUCHED
      ensures this.inner == inner && State() == FRESH
    {
      this.inner := inner;
      status, bytes, wroteHeader := 200, 0, false;
    }

    method WriteHeader(code: int) returns (panics: bool)
      modifies this, inner
      ensures State() == OnCounting(old(State()), Call.WriteHeader(code))
      ensures panics == (inner.wire.panicked && !old(inner.wire.panicked))
    {
      if wroteHeader {
        return false;
      }
      status := code;
      wroteHeader := true;
      panics := inner.WriteHeader(code);
    }

    method Write(accepted: nat)
      modifies this, inner
      ensures State() == OnCounting(old(State()), Call.Write(accepted))
    {
      if !wroteHeader {
        status := 200;
        wroteHeader := true;
      }
      var n := inner.Write(accepted);
      if n > 0 {
        bytes := bytes + n;
      }
    }

    method Flush()
      modifies this, inner
      ensures State() == OnCounting(old(State()), Call.Flush)
    {
      inner.Flush();
    }
  }

  /** The status the client ends up with: a handler that ends without a header has sent 200, a panic
      before any final header becomes a 500. */
  function ClientStatus(w: Wire, panicked: bool): int {
    w.final.GetOr(if panicked || w.panicked then 500 else 200)
  }

  /** The status the middleware counts. */
  function CountedStatus(c: Counting, panicked: bool): int {
    if (panicked || c.wire.panicked) && !c.wroteHeader then 500 else c.status
  }

  /** Once the counting writer has seen a header its status is fixed, and it lets no panic through. */
  lemma {:induction false} StatusStays(c: Counting, calls: seq<Call>)
    requires c.wroteHeader
    ensures var c' := Through(c, calls);
            c'.wroteHeader && c'.status == c.status && c'.wire.panicked == c.wire.panicked
    decreases calls
  {
    if calls != [] && !c.wire.panicked {
      StatusStays(OnCounting(c, calls[0]), calls[1..]);
    }
  }

  lemma {:induction false} FinalStays(c: Counting, calls: seq<Call>)
    requires c.wire.final.Some?
    ensures Through(c, calls).wire == c.wire
    decreases calls
  {
    if calls != [] && !c.wire.panicked {
      FinalStays(OnCounting(c, calls[0]), calls[1..]);
    }
  }

  /** Behind an informational header the only final status is an implicit 200. */
  lemma {:induction false} SuppressedHeader(c: Counting, calls: seq<Call>)
    requires c.wroteHeader && c.wire.final.None? && !c.wire.panicked
    ensures Through(c, calls).wire.final == if forall call <- calls :: call.WriteHeader? then None else Some(200)
    decreases calls
  {
    if calls != [] {
      var d := OnCounting(c, calls[0]);
      assert forall call <- calls :: call == calls[0] || call in calls[1..];
      if d.wire.final.None? {
        SuppressedHeader(d, calls[1..]);
      } else {
        FinalStays(d, calls[1..]);
      }
    }
  }

  function AfterFlushes(calls: seq<Call>): seq<Call> {
    if calls != [] && calls[0].Flush? then AfterFlushes(calls[1..]) else calls
  }

  /** The writer of a handler that has only flushed: the client has its 200. */
  const FLUSHED := FRESH.(wire := Wire([], Some(200), false))

  lemma {:induction false} FlushOnce(calls: seq<Call>)
    ensures Through(FLUSHED, calls) == Through(FLUSHED, AfterFlushes(calls))
    decreases calls
  {
    if calls != [] && calls[0].Flush? {
      FlushOnce(calls[1..]);
    }
  }

  /** How a handler must open for the counts to be right. An early flush has sent the client a 200, so
      a header behind it must say 200, and a panic must not be the next thing; without a flush, a
      header that comes first must be final. */
  predicate Opens(calls: seq<Call>, panicked: bool) {
    var flushed, rest := calls != [] && calls[0].Flush?, AfterFlushes(calls);
    if rest == [] then !(flushed && panicked)
    else match rest[0]
         case WriteHeader(code) => if flushed then code == 200 else code == 101 || 200 <= code <= 999
         case _ => true
  }

  lemma FlushedFirst(calls: seq<Call>, panicked: bool)
    requires calls != [] && calls[0].Flush?
    ensures ClientStatus(Through(FRESH, calls).wire, panicked) == 200
    ensures CountedStatus(Through(FRESH, calls), panicked) == 200 <==> Opens(calls, panicked)
  {
    var rest := AfterFlushes(calls[1..]);
    assert OnCounting(FRESH, calls[0]) == FLUSHED;
    FlushOnce(calls[1..]);
    FinalStays(FLUSHED, rest);
    if rest != [] {
      NoFlushAhead(calls[1..]);
      StatusStays(OnCounting(FLUSHED, rest[0]), rest[1..]);
    }
  }

  lemma NoFlushAhead(calls: seq<Call>)
    ensures AfterFlushes(calls) != [] ==> !AfterFlushes(calls)[0].Flush?
  {
  }

  lemma HeaderFirst(calls: seq<Call>, panicked: bool)
    requires calls != [] && calls[0].WriteHeader?
    ensures CountedStatus(Through(FRESH, calls), panicked) == calls[0].code
    ensures ClientStatus(Through(FRESH, calls).wire, panicked) == calls[0].code <==> FinalCode(calls[0].code)
  {
    var c := OnCounting(FRESH, calls[0]);
    StatusStays(c, calls[1..]);
    if c.wire.final.Some? {
      FinalStays(c, calls[1..]);
    } else if !c.wire.panicked {
      SuppressedHeader(c, calls[1..]);
    }
  }

  /** The counted status is the one the client gets, on return and on panic alike, exactly when the
      handler opens well: not with an informational or impossible header, and not with a flush that
      another status or a panic belies. */
  lemma CountedIsEffective(calls: seq<Call>, panicked: bool)
    ensures CountedStatus(Through(FRESH, calls), panicked) == ClientStatus(Through(FRESH, calls).wire, panicked)
            <==> Opens(calls, panicked)
  {
    if calls != [] {
      match calls[0]
      case WriteHeader(_) => HeaderFirst(calls, panicked);
      case Flush => FlushedFirst(calls, panicked);
      case Write(_) =>
        StatusStays(OnCounting(FRESH, calls[0]), calls[1..]);
        FinalStays(OnCounting(FRESH, calls[0]), calls[1..]);
    }
  }

  predicate InformationalFirst(calls: seq<Call>) {
    calls != [] && calls[0].WriteHeader? && 100 <= calls[0].code <= 199 && calls[0].code != 101
  }

  lemma {:induction false} DirectSettled(w: Wire, calls: seq<Call>)
    requires w.final.Some? || w.panicked
    ensures Direct(w, calls) == w
    decreases calls
  {
    if calls != [] && !w.panicked {
      DirectSettled(OnWire(w, calls[0]), calls[1..]);
    }
  }

  /** The middleware does not change the status the client gets, except behind an informational
      header: there every later header is lost, and the client gets 200, or 500 from a panic before
      anything is written or flushed, whatever it would have got without the middleware. */
  lemma MiddlewareTransparent(calls: seq<Call>, panicked: bool)
    ensures var direct := ClientStatus(Direct(UNTOUCHED, calls), panicked);
            ClientStatus(Through(FRESH, calls).wire, panicked) == direct
            <==> !InformationalFirst(calls)
                 || direct == if panicked && (forall call <- calls :: call.WriteHeader?) then 500 else 200
  {
    if calls != [] {
      var c := OnCounting(FRESH, calls[0]);
      if InformationalFirst(calls) {
        SuppressedHeader(c, calls[1..]);
        StatusStays(c, calls[1..]);
        assert forall call <- calls :: call == calls[0] || call in calls[1..];
      } else {
        DirectSettled(OnWire(UNTOUCHED, calls[0]), calls[1..]);
        if c.wire.final.Some? {
          FinalStays(c, calls[1..]);
        }
      }
    }
  }

  /** Bytes the connection took over a sequence of calls. */
  function Accepted(calls: seq<Call>): nat {
    if calls == [] then 0
    else (if calls[0].Write? then calls[0].accepted else 0) + Accepted(calls[1..])
  }

  /** The calls the handler gets to make before a header it writes makes it panic. */
  function Made(c: Counting, calls: seq<Call>): seq<Call>
    decreases calls
  {
    if calls == [] || c.wire.panicked then [] else [calls[0]] + Made(OnCounting(c, calls[0]), calls[1..])
  }

  /** Every accepted byte is counted, whatever the headers did. */
  lemma {:induction false} BytesCounted(c: Counting, calls: seq<Call>)
    ensures Through(c, calls).bytes == c.bytes + Accepted(Made(c, calls))
    decreases calls
  {
    if calls != [] && !c.wire.panicked {
      BytesCounted(OnCounting(c, calls[0]), calls[1..]);
    }
  }

  // Accounting

  datatype Label = Label(verb: string, endpoint: string)

  function Value<K(==)>(m: map<K, int>, k: K): int {
    if k in m then m[k] else 0
  }

  function Add<K(==)>(m: map<K, int>, k: K, n: int): map<K, int> {
    m[k := Value(m, k) + n]
  }

  /** The metrics the middleware updates. */
  datatype Counters = Counters(
    inFlight: map<string, int>,
    total: map<(Label, int), int>,
    durations: map<Label, int>,
    bytesSent: map<Label, int>)

  function CountStart(m: Counters, l: Label): Counters {
    m.(inFlight := Add(m.inFlight, l.endpoint, 1))
  }

  /** The deferred observations of one request. */
  function CountEnd(m: Counters, l: Label, c: Counting, panicked: bool): Counters {
    Counters(
      Add(m.inFlight, l.endpoint, -1),
      Add(m.total, (l, CountedStatus(c, panicked)), 1),
      Add(m.durations, l, 1),
      Add(m.bytesSent, l, c.bytes))
  }

  class Registry {
    var counters: Counters

    constructor (counters: Counters)
      ensures this.counters == counters
    {
      this.counters := counters;
    }
  }

  /** `WithMetrics` around a handler that makes `calls` and then returns or panics: a panic goes on
      to the caller, and the accounting is done either way. */
  method WithMetrics(m: Registry, l: Label, calls: seq<Call>, panics: bool) returns (wire: Wire, panicked: bool)
    modifies m
    ensures wire == Through(FRESH, calls).wire
    ensures panicked == (panics || wire.panicked)
    ensures m.counters == CountEnd(CountStart(old(m.counters), l), l, Through(FRESH, calls), panics)
    ensures Value(m.counters.inFlight, l.endpoint) == Value(old(m.counters.inFlight), l.endpoint)
    ensures Value(m.counters.bytesSent, l) == Value(old(m.counters.bytesSent), l) + Accepted(Made(FRESH, calls))
  {
    BytesCounted(FRESH, calls);
    var w := new ConnectionWriter();
    var rec := new CountingResponseWriter(w);
    m.counters := CountStart(m.counters, l);
    var i, thrown := 0, false;
    while i < |calls| && !thrown
      invariant i <= |calls|
      invariant Through(FRESH, calls) == Through(rec.State(), calls[i..])
      invariant thrown == w.wire.panicked
      invariant m.counters == CountStart(old(m.counters), l)
      decreases |calls| - i
    {
      assert calls[i..][1..] == calls[i + 1..];
      match calls[i] {
        case WriteHeader(code) => thrown := rec.WriteHeader(code);
        case Write(accepted) => rec.Write(accepted);
        case Flush => rec.Flush();
      }
      i := i + 1;
    }
    panicked := panics || thrown;
    var status := rec.status;
    if panicked && !rec.wroteHeader {
      status := 500;
    }
    m.counters := Counters(
      Add(m.counters.inFlight, l.endpoint, -1),
      Add(m.counters.total, (l, status), 1),
      Add(m.counters.durations, l, 1),
      Add(m.counters.bytesSent, l, rec.bytes));
    wire := w.wire;
  }

  // Many requests at once

  datatype Request = Request(series: Label, calls: seq<Call>, ended: Option<bool>)  // Some(panicked)

  datatype State = State(counters: Counters, requests: map<nat, Request>)

  datatype Action = Start(id: nat, series: Label) | Does(id: nat, call: Call) | Ends(id: nat, panicked: bool)

  predicate Running(s: State, id: nat) {
    id in s.requests && s.requests[id].ended.None?
  }

  function Step(s: State, a: Action): State {
    match a
    case Start(id, l) =>
      if id in s.requests then s
      else State(CountStart(s.counters, l), s.requests[id := Request(l, [], None)])
    case Does(id, call) =>
      if !Running(s, id) then s
      else s.(requests := s.requests[id := s.requests[id].(calls := s.requests[id].calls + [call])])
    case Ends(id, panicked) =>
      if !Running(s, id) then s
      else
        var r := s.requests[id];
        State(CountEnd(s.counters, r.series, Through(FRESH, r.calls), panicked),
              s.requests[id := r.(ended := Some(panicked))])
  }

  /** A request can start, make calls and end, once each as long as it runs. */
  lemma StepsHappen(s: State, id: nat, l: Label, call: Call, panicked: bool)
    ensures id !in s.requests ==> Step(s, Start(id, l)).requests == s.requests[id := Request(l, [], None)]
    ensures Running(s, id) ==>
              var r := s.requests[id];
              && Step(s, Does(id, call)).requests == s.requests[id := Request(r.series, r.calls + [call], None)]
              && Step(s, Ends(id, panicked)).requests == s.requests[id := Request(r.series, r.calls, Some(panicked))]
  {
  }

  function Run(s: State, actions: seq<Action>): State
    decreases actions
  {
    if actions == [] then s else Run(Step(s, actions[0]), actions[1..])
  }

  function Started(rs: map<nat, Request>, l: Label): set<nat> {
    set id <- rs | rs[id].series == l
  }

  function InFlight(rs: map<nat, Request>, endpoint: string): set<nat> {
    set id <- rs | rs[id].series.endpoint == endpoint && rs[id].ended.None?
  }

  function Unfinished(rs: map<nat, Request>, l: Label): set<nat> {
    set id <- rs | rs[id].series == l && rs[id].ended.None?
  }

  /** Finished requests of a label whose client got status `code`. */
  function Answered(rs: map<nat, Request>, l: Label, code: int): set<nat> {
    set id <- rs | rs[id].series == l && rs[id].ended.Some?
                   && ClientStatus(Through(FRESH, rs[id].calls).wire, rs[id].ended.value) == code
  }

  /** Finished requests of a label that were counted under status `code`. */
  function Counted(rs: map<nat, Request>, l: Label, code: int): set<nat> {
    set id <- rs | rs[id].series == l && rs[id].ended.Some?
                   && CountedStatus(Through(FRESH, rs[id].calls), rs[id].ended.value) == code
  }

  /** Every handler that has ended had opened well. */
  ghost predicate AllOpen(rs: map<nat, Request>) {
    forall id <- rs :: rs[id].ended.Some? ==> Opens(rs[id].calls, rs[id].ended.value)
  }

  /** The metrics of one series and status agree with the requests, counted from `base`. */
  ghost predicate Inv(base: Counters, s: State, l: Label, code: int) {
    && Value(s.counters.inFlight, l.endpoint) == Value(base.inFlight, l.endpoint) + |InFlight(s.requests, l.endpoint)|
    && Value(base.durations, l) + |Started(s.requests, l)| == Value(s.counters.durations, l) + |Unfinished(s.requests, l)|
    && Value(s.counters.total, (l, code)) == Value(base.total, (l, code)) + |Counted(s.requests, l, code)|
  }

  lemma SetsAfterStart(rs: map<nat, Request>, id: nat, l: Label, k: Label, code: int)
    requires id !in rs
    ensures var rs' := rs[id := Request(l, [], None)];
            && Started(rs', k) == Started(rs, k) + (if k == l then {id} else {})
            && Unfinished(rs', k) == Unfinished(rs, k) + (if k == l then {id} else {})
            && InFlight(rs', k.endpoint) == InFlight(rs, k.endpoint) + (if k.endpoint == l.endpoint then {id} else {})
            && Counted(rs', k, code) == Counted(rs, k, code)
  {
  }

  lemma SetsAfterCall(rs: map<nat, Request>, id: nat, calls: seq<Call>, k: Label, code: int)
    requires id in rs && rs[id].ended.None?
    ensures var rs' := rs[id := rs[id].(calls := calls)];
            && Started(rs', k) == Started(rs, k)
            && Unfinished(rs', k) == Unfinished(rs, k)
            && InFlight(rs', k.endpoint) == InFlight(rs, k.endpoint)
            && Counted(rs', k, code) == Counted(rs, k, code)
  {
  }

  lemma SetsAfterEnd(rs: map<nat, Request>, id: nat, panicked: bool, k: Label, code: int)
    requires id in rs && rs[id].ended.None?
    ensures var r := rs[id];
            var rs' := rs[id := r.(ended := Some(panicked))];
            var status := CountedStatus(Through(FRESH, r.calls), panicked);
            && Started(rs', k) == Started(rs, k)
            && Unfinished(rs', k) == Unfinished(rs, k) - (if k == r.series then {id} else {})
            && InFlight(rs', k.endpoint) == InFlight(rs, k.endpoint) - (if k.endpoint == r.series.endpoint then {id} else {})
            && Counted(rs', k, code) == Counted(rs, k, code) + (if k == r.series && code == status then {id} else {})
  {
  }

  lemma AddValue<K>(m: map<K, int>, k: K, n: int, j: K)
    ensures Value(Add(m, k, n), j) == Value(m, j) + if j == k then n else 0
  {
  }

  lemma OneLess(s: set<nat>, id: nat)
    requires id in s
    ensures |s - {id}| == |s| - 1
  {
  }

  lemma GaugesAfterEnd(base: Counters, s: State, id: nat, panicked: bool, l: Label, code: int)
    requires Inv(base, s, l, code) && Running(s, id)
    ensures var s' := Step(s, Ends(id, panicked));
            && Value(s'.counters.inFlight, l.endpoint) == Value(base.inFlight, l.endpoint) + |InFlight(s'.requests, l.endpoint)|
            && Value(base.durations, l) + |Started(s'.requests, l)| == Value(s'.counters.durations, l) + |Unfinished(s'.requests, l)|
  {
    var series := s.requests[id].series;
    SetsAfterEnd(s.requests, id, panicked, l, code);
    AddValue(s.counters.inFlight, series.endpoint, -1, l.endpoint);
    AddValue(s.counters.durations, series, 1, l);
    if series.endpoint == l.endpoint {
      OneLess(InFlight(s.requests, l.endpoint), id);
    }
    if series == l {
      OneLess(Unfinished(s.requests, l), id);
    }
  }

  lemma TotalsAfterEnd(base: Counters, s: State, id: nat, panicked: bool, l: Label, code: int)
    requires Inv(base, s, l, code) && Running(s, id)
    ensures var s' := Step(s, Ends(id, panicked));
            Value(s'.counters.total, (l, code)) == Value(base.total, (l, code)) + |Counted(s'.requests, l, code)|
  {
    var r := s.requests[id];
    var c := Through(FRESH, r.calls);
    SetsAfterEnd(s.requests, id, panicked, l, code);
    AddValue(s.counters.total, (r.series, CountedStatus(c, panicked)), 1, (l, code));
    assert id !in Counted(s.requests, l, code);
  }

  lemma EndKeepsInv(base: Counters, s: State, id: nat, panicked: bool, l: Label, code: int)
    requires Inv(base, s, l, code) && Running(s, id)
    ensures Inv(base, Step(s, Ends(id, panicked)), l, code)
  {
    GaugesAfterEnd(base, s, id, panicked, l, code);
    TotalsAfterEnd(base, s, id, panicked, l, code);
  }

  lemma StartKeepsInv(base: Counters, s: State, id: nat, series: Label, l: Label, code: int)
    requires Inv(base, s, l, code) && id !in s.requests
    ensures Inv(base, Step(s, Start(id, series)), l, code)
  {
    SetsAfterStart(s.requests, id, series, l, code);
    AddValue(s.counters.inFlight, series.endpoint, 1, l.endpoint);
  }

  lemma StepKeepsInv(base: Counters, s: State, a: Action, l: Label, code: int)
    requires Inv(base, s, l, code)
    ensures Inv(base, Step(s, a), l, code)
  {
    match a
    case Start(id, series) =>
      if id !in s.requests {
        StartKeepsInv(base, s, id, series, l, code);
      }
    case Does(id, call) =>
      if Running(s, id) {
        SetsAfterCall(s.requests, id, s.requests[id].calls + [call], l, code);
      }
    case Ends(id, panicked) =>
      if Running(s, id) {
        EndKeepsInv(base, s, id, panicked, l, code);
      }
  }

  lemma {:induction false} RunKeepsInv(base: Counters, s: State, actions: seq<Action>, l: Label, code: int)
    requires Inv(base, s, l, code)
    ensures Inv(base, Run(s, actions), l, code)
    decreases actions
  {
    if actions != [] {
      StepKeepsInv(base, s, actions[0], l, code);
      RunKeepsInv(base, Step(s, actions[0]), actions[1..], l, code);
    }
  }

  /** The request counters tell, for every series and status, how many clients got that status
      exactly when every handler that has ended had opened well. */
  lemma CountedIsAnswered(rs: map<nat, Request>)
    ensures (forall l, code :: Counted(rs, l, code) == Answered(rs, l, code)) <==> AllOpen(rs)
  {
    forall id <- rs | rs[id].ended.Some? {
      CountedIsEffective(rs[id].calls, rs[id].ended.value);
    }
    if id :| id in rs && rs[id].ended.Some? && !Opens(rs[id].calls, rs[id].ended.value) {
      var l, code := rs[id].series, CountedStatus(Through(FRESH, rs[id].calls), rs[id].ended.value);
      assert id in Counted(rs, l, code) && id !in Answered(rs, l, code);
    }
  }

  /** Conservation over every interleaving of requests that start, write, flush, return and panic:
      per series, started is unfinished plus counted; each in-flight gauge is its start value plus
      the requests still running, so it is back there when all have ended; and the request counter
      of each status is the number of requests counted under it, which is the number of clients that
      got that status as long as every handler opened well. */
  lemma Conservation(base: Counters, actions: seq<Action>, l: Label, code: int)
    ensures var s := Run(State(base, map[]), actions);
            && |Started(s.requests, l)| == |Unfinished(s.requests, l)| + (Value(s.counters.durations, l) - Value(base.durations, l))
            && Value(s.counters.inFlight, l.endpoint) == Value(base.inFlight, l.endpoint) + |InFlight(s.requests, l.endpoint)|
            && ((forall id <- s.requests :: s.requests[id].ended.Some?) ==>
                  Value(s.counters.inFlight, l.endpoint) == Value(base.inFlight, l.endpoint))
            && Value(s.counters.total, (l, code)) == Value(base.total, (l, code)) + |Counted(s.requests, l, code)|
            && (AllOpen(s.requests) ==>
                  Value(s.counters.total, (l, code)) == Value(base.total, (l, code)) + |Answered(s.requests, l, code)|)
  {
    assert Inv(base, State(base, map[]), l, code);
    RunKeepsInv(base, State(base, map[]), actions, l, code);
    var s := Run(State(base, map[]), actions);
    CountedIsAnswered(s.requests);
    if forall id <- s.requests :: s.requests[id].ended.Some? {
      assert InFlight(s.requests, l.endpoint) == {};
    }
  }
}
