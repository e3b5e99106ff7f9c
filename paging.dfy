/**
 * The paged-fetch state machine of `Client._paged_request`, as functions.
 *
 * The request callback is a script of outcomes, one per call; the sink is a
 * script of replies; the cursor module (parse, re-serialise, compare) is a
 * parameter. `Run` gives the outcome of the whole call together with the
 * trace of every interaction the loop has with its collaborators, in order.
 */
module Paging {
  import opened Wrappers

  /** One response after the reduce callback: the result batch and the
      optional `last` and `next` fields of the record. */
  datatype Page<T> = Page(results: seq<T>, last: Option<bool>, next: Option<string>)

  /** What one call of the request callback does: it throws, or it returns a record. */
  datatype Fetch<T> = Failed | Fetched(page: Page<T>)

  /** The time-series key module: `parse_extended` (partial; it also receives
      an absent `next` as `None`), `unparse_extended` and `compare_extended`. */
  datatype Cursors<!K> = Cursors(
    parse: Option<string> -> Option<K>,
    unparse: (K, bool) -> string,
    compare: (K, K) -> int)

  /** The sink's replies: to `start()`, to the i-th `emit(...)`, to `finish()`. */
  datatype Sink = Sink(startOk: bool, emitOk: nat -> bool, finishOk: bool)

  /** The client fields the loop reads. */
  datatype Settings = Settings(retryLimit: int, ignoreLast: bool, startKey: Option<string>, endKey: Option<string>)

  /** Everything outside the loop: the request callback's script and the sink. */
  datatype Env<T> = Env(fetches: seq<Fetch<T>>, sink: Sink)

  /** The interactions the loop performs, in the order it performs them. */
  datatype Event<T> =
    | Start                                        // emitter.start()
    | Request(key: Option<string>)                 // _request_callback(_profile, next_key)
    | Backoff                                      // ratelimit.wait(true, true)
    | Emit(batch: seq<T>, first: bool, last: bool) // emitter.emit(results, is_first_page, is_final_page)
    | Finish                                       // emitter.finish()

  datatype Fault =
    | MalformedRangeKey   // 'Malformed start and/or end time-series key'
    | StartFailed         // 'Result dispatch: start failed'
    | RetryLimitExceeded  // 'Retry limit exceeded; refusing to continue'
    | DispatchFailed      // 'Result dispatch failed'
    | CorruptKey          // 'Invalid or corrupt time-series key'
    | FinishFailed        // 'Result dispatch: completion failed'

  /** `Done` is the `return true`; `Unfinished` means the request script ran
      out while the loop still wanted another page. */
  datatype Outcome = Done | Fatal(fault: Fault) | Unfinished

  /** The key the first request uses and the parsed end key. */
  datatype Bounds<K> = Bounds(firstKey: Option<string>, endParsed: Option<K>)

  /** The loop variables at the head of an iteration (`is_final_page` is
      always false there), plus how much of each script has been used. */
  datatype LoopState = LoopState(errorCount: int, nextKey: Option<string>, isFirstPage: bool, fetched: nat, emitted: nat)

  datatype Exit = Graceful | Abort(fault: Fault)

  datatype StepResult<T> = Continue(state: LoopState, events: seq<Event<T>>) | Stop(exit: Exit, events: seq<Event<T>>)

  /** JavaScript truthiness of a key that is a string or null. */
  predicate Present(k: Option<string>) {
    k.Some? && k.value != ""
  }

  /** The time-series constraints read before anything else: a present start
      key is parsed and re-serialised as a start marker, a present end key is
      parsed; either failing to parse is `None`. */
  function Setup<K>(c: Cursors<K>, s: Settings): Option<Bounds<K>>
  {
    if Present(s.startKey) && c.parse(s.startKey).None? then None
    else if Present(s.endKey) && c.parse(s.endKey).None? then None
    else Some(Bounds(
      if Present(s.startKey) then Some(c.unparse(c.parse(s.startKey).value, true)) else None,
      if Present(s.endKey) then c.parse(s.endKey) else None))
  }

  /** The emitted `is_final_page` before the cursor checks. */
  predicate LastFlag<T>(ignoreLast: bool, p: Page<T>) {
    !ignoreLast && p.last == Some(true)
  }

  /** The cursor checks after an emit: `None` when a key that is read fails
      to parse, `Some(stop)` otherwise. The previous key, and with it the end
      key, is consulted only when the previous key is not null. */
  function KeyCheck<K>(c: Cursors<K>, endParsed: Option<K>, prev: Option<string>, next: Option<string>): Option<bool>
  {
    match c.parse(next)
    case None => None
    case Some(np) =>
      if prev.None? then Some(false)
      else
        match c.parse(prev)
        case None => None
        case Some(pp) =>
          Some(c.compare(pp, np) >= 0 || (endParsed.Some? && c.compare(endParsed.value, np) <= 0))
  }

  /** One iteration of the `for (;;)` loop. */
  function Step<K, T>(c: Cursors<K>, s: Settings, endParsed: Option<K>, env: Env<T>, st: LoopState): StepResult<T>
    requires st.fetched < |env.fetches|
  {
    var req := [Request(st.nextKey)];
    match env.fetches[st.fetched]
    case Failed =>
      if st.errorCount >= s.retryLimit then Stop(Abort(RetryLimitExceeded), req)
      else Continue(st.(errorCount := st.errorCount + 1, fetched := st.fetched + 1), req + [Backoff])
    case Fetched(page) =>
      if |page.results| == 0 then Stop(Graceful, req)
      else
        var isFinal := LastFlag(s.ignoreLast, page);
        var emitted := req + [Emit(page.results, st.isFirstPage, isFinal)];
        if !env.sink.emitOk(st.emitted) then Stop(Abort(DispatchFailed), emitted)
        else
          match KeyCheck(c, endParsed, st.nextKey, page.next)
          case None => Stop(Abort(CorruptKey), emitted)
          case Some(stop) =>
            if isFinal || stop then Stop(Graceful, emitted)
            else Continue(LoopState(0, page.next, false, st.fetched + 1, st.emitted + 1), emitted)
  }

  /** The graceful tail shared by every non-fatal exit of the loop. */
  function Tail<T>(sink: Sink, trace: seq<Event<T>>): (Outcome, seq<Event<T>>)
  {
    (if sink.finishOk then Done else Fatal(FinishFailed), trace + [Finish])
  }

  /** The loop from state `st`, with `trace` the interactions so far. */
  function Loop<K, T>(c: Cursors<K>, s: Settings, endParsed: Option<K>, env: Env<T>, st: LoopState, trace: seq<Event<T>>): (Outcome, seq<Event<T>>)
    decreases |env.fetches| - st.fetched
  {
    if st.fetched >= |env.fetches| then (Unfinished, trace)
    else
      match Step(c, s, endParsed, env, st)
      case Stop(Graceful, ev) => Tail(env.sink, trace + ev)
      case Stop(Abort(f), ev) => (Fatal(f), trace + ev)
      case Continue(next, ev) =>
        assert next.fetched == st.fetched + 1;
        Loop(c, s, endParsed, env, next, trace + ev)
  }

  /** The first loop state. */
  function Initial(firstKey: Option<string>): LoopState {
    LoopState(0, firstKey, true, 0, 0)
  }

  /** The whole of `_paged_request`. */
  function Run<K, T>(c: Cursors<K>, s: Settings, env: Env<T>): (Outcome, seq<Event<T>>)
  {
    match Setup(c, s)
    case None => (Fatal(MalformedRangeKey), [])
    case Some(b) =>
      if !env.sink.startOk then (Fatal(StartFailed), [Start])
      else Loop(c, s, b.endParsed, env, Initial(b.firstKey), [Start])
  }
}
