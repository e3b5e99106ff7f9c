/**
 * What `_paged_request` promises, proved about the functions of `Paging`.
 */
module PagingProperties {
  import opened Wrappers
  import opened Paging

  // ----- Before the loop ---------------------------------------------------

  /** Every range key that is given (truthy) parses. */
  predicate RangeKeysParse<K>(c: Cursors<K>, s: Settings) {
    (!Present(s.startKey) || c.parse(s.startKey).Some?) && (!Present(s.endKey) || c.parse(s.endKey).Some?)
  }

  /** The loop itself never reports a fault of the set-up phase. */
  lemma LoopOutcomeKinds<K, T>(c: Cursors<K>, s: Settings, endParsed: Option<K>, env: Env<T>, st: LoopState)
    ensures var o := Loop(c, s, endParsed, env, st, [Start]).0;
      o != Fatal(MalformedRangeKey) && o != Fatal(StartFailed)
  {
    LoopSinkProtocol(c, s, endParsed, env, st, [Start]);
    LoopExtendsTrace(c, s, endParsed, env, st, [Start]);
  }

  /** The range keys are validated before anything else: the whole call
      fails as malformed exactly when a given key does not parse, and then
      it has touched neither the emitter nor the request callback. */
  lemma RangeKeyValidation<K, T>(c: Cursors<K>, s: Settings, env: Env<T>)
    ensures Run(c, s, env).0 == Fatal(MalformedRangeKey) <==> !RangeKeysParse(c, s)
    ensures Run(c, s, env).0 == Fatal(MalformedRangeKey) ==> Run(c, s, env).1 == []
  {
    if Setup(c, s).Some? && env.sink.startOk {
      var b := Setup(c, s).value;
      LoopOutcomeKinds(c, s, b.endParsed, env, Initial(b.firstKey));
    }
  }

  /** The loop reads only the retry limit and `ignore_last` of the settings. */
  lemma {:induction false} LoopReadsLimitAndIgnoreLast<K, T>(c: Cursors<K>, s1: Settings, s2: Settings, endParsed: Option<K>, env: Env<T>, st: LoopState, trace: seq<Event<T>>)
    requires s1.retryLimit == s2.retryLimit && s1.ignoreLast == s2.ignoreLast
    ensures Loop(c, s1, endParsed, env, st, trace) == Loop(c, s2, endParsed, env, st, trace)
    decreases |env.fetches| - st.fetched
  {
    if st.fetched < |env.fetches| {
      var r := Step(c, s1, endParsed, env, st);
      assert r == Step(c, s2, endParsed, env, st);
      if r.Continue? {
        LoopReadsLimitAndIgnoreLast(c, s1, s2, endParsed, env, r.state, trace + r.events);
      }
    }
  }

  /** An empty range key is no range key: the whole call behaves as if it
      were null. */
  lemma FalsyRangeKeysIgnored<K, T>(c: Cursors<K>, s: Settings, env: Env<T>)
    ensures Run(c, s.(startKey := Some("")), env) == Run(c, s.(startKey := None), env)
    ensures Run(c, s.(endKey := Some("")), env) == Run(c, s.(endKey := None), env)
  {
    var s1, s2 := s.(startKey := Some("")), s.(startKey := None);
    assert Setup(c, s1) == Setup(c, s2);
    if Setup(c, s1).Some? {
      var b := Setup(c, s1).value;
      LoopReadsLimitAndIgnoreLast(c, s1, s2, b.endParsed, env, Initial(b.firstKey), [Start]);
    }
    var s3, s4 := s.(endKey := Some("")), s.(endKey := None);
    assert Setup(c, s3) == Setup(c, s4);
    if Setup(c, s3).Some? {
      var b := Setup(c, s3).value;
      LoopReadsLimitAndIgnoreLast(c, s3, s4, b.endParsed, env, Initial(b.firstKey), [Start]);
    }
  }

  /** `start()` precedes every request: when the emitter refuses to start,
      the call fails with the start fault, having made no request and no
      emit, and it fails that way only then. */
  lemma StartBeforeFetch<K, T>(c: Cursors<K>, s: Settings, env: Env<T>)
    ensures Run(c, s, env).0 == Fatal(StartFailed) <==> RangeKeysParse(c, s) && !env.sink.startOk
    ensures !env.sink.startOk ==>
      RequestCount(Run(c, s, env).1) == 0 && NoEmit(Run(c, s, env).1) && Run(c, s, env).0.Fatal?
  {
    if Setup(c, s).Some? && env.sink.startOk {
      var b := Setup(c, s).value;
      LoopOutcomeKinds(c, s, b.endParsed, env, Initial(b.firstKey));
    }
    if !env.sink.startOk {
      assert RequestCount<T>([Start]) == 0;
      assert NoEmit<T>([Start]);
    }
  }

  /** When the loop is entered, its first interaction after `start()` is the
      request with the start key parsed and re-serialised as a start marker,
      or with null when no start key is given. */
  lemma FirstRequestUsesFirstKey<K, T>(c: Cursors<K>, s: Settings, env: Env<T>)
    requires RangeKeysParse(c, s) && env.sink.startOk && |env.fetches| > 0
    ensures |Run(c, s, env).1| >= 2
    ensures Run(c, s, env).1[..2] ==
      [Start, Request(if Present(s.startKey) then Some(c.unparse(c.parse(s.startKey).value, true)) else None)]
  {
    var b := Setup(c, s).value;
    var st := Initial(b.firstKey);
    var ev := Step(c, s, b.endParsed, env, st).events;
    assert ev[0] == Request(b.firstKey);
    LoopExtendsTrace(c, s, b.endParsed, env, st, [Start]);
    var t := Run(c, s, env).1;
    assert t[..|[Start] + ev|] == [Start] + ev;
    assert t[..2] == ([Start] + ev)[..2];
  }

  // ----- One iteration -----------------------------------------------------

  /** Every iteration calls the request callback exactly once, first, with
      `next_key`; then it backs off, or emits the page's results with
      `is_first_page` and `is_final_page` as set from `record.last`. */
  lemma StepShape<K, T>(c: Cursors<K>, s: Settings, endParsed: Option<K>, env: Env<T>, st: LoopState)
    requires st.fetched < |env.fetches|
    ensures var r := Step(c, s, endParsed, env, st);
      && 1 <= |r.events| <= 2
      && r.events[0] == Request(st.nextKey)
      && (|r.events| == 2 ==>
            r.events[1] == Backoff ||
            (env.fetches[st.fetched].Fetched? &&
             r.events[1] == Emit(env.fetches[st.fetched].page.results, st.isFirstPage,
                                 LastFlag(s.ignoreLast, env.fetches[st.fetched].page))))
      && (r.Continue? ==> |r.events| == 2 && r.state.fetched == st.fetched + 1)
      && (r.Continue? && r.events[1].Backoff? ==>
            r.state == st.(errorCount := st.errorCount + 1, fetched := st.fetched + 1))
      && (r.Continue? && r.events[1].Emit? ==>
            !r.events[1].last && r.state.errorCount == 0 && !r.state.isFirstPage &&
            r.state.nextKey == env.fetches[st.fetched].page.next && r.state.emitted == st.emitted + 1)
  {
  }

  /** A zero-length result stops the loop without emitting and runs the tail. */
  lemma EmptyPageStops<K, T>(c: Cursors<K>, s: Settings, endParsed: Option<K>, env: Env<T>, st: LoopState, trace: seq<Event<T>>)
    requires st.fetched < |env.fetches| && env.fetches[st.fetched].Fetched?
    requires |env.fetches[st.fetched].page.results| == 0
    ensures Loop(c, s, endParsed, env, st, trace) == Tail(env.sink, trace + [Request(st.nextKey)])
  {
    assert Step(c, s, endParsed, env, st) == Stop(Graceful, [Request(st.nextKey)]);
  }

  /** An emit that the sink refuses is fatal, right after the emit. */
  lemma RefusedEmitIsFatal<K, T>(c: Cursors<K>, s: Settings, endParsed: Option<K>, env: Env<T>, st: LoopState, trace: seq<Event<T>>)
    requires st.fetched < |env.fetches| && env.fetches[st.fetched].Fetched?
    requires |env.fetches[st.fetched].page.results| > 0 && !env.sink.emitOk(st.emitted)
    ensures var p := env.fetches[st.fetched].page;
      Loop(c, s, endParsed, env, st, trace) ==
        (Fatal(DispatchFailed), trace + [Request(st.nextKey), Emit(p.results, st.isFirstPage, LastFlag(s.ignoreLast, p))])
  {
    var p := env.fetches[st.fetched].page;
    assert Step(c, s, endParsed, env, st) ==
      Stop(Abort(DispatchFailed), [Request(st.nextKey), Emit(p.results, st.isFirstPage, LastFlag(s.ignoreLast, p))]);
  }

  /** A `next` that does not parse is fatal once the page is emitted, even
      when the page was flagged last. */
  lemma CorruptNextIsFatal<K, T>(c: Cursors<K>, s: Settings, endParsed: Option<K>, env: Env<T>, st: LoopState, trace: seq<Event<T>>)
    requires st.fetched < |env.fetches| && env.fetches[st.fetched].Fetched?
    requires var p := env.fetches[st.fetched].page;
      |p.results| > 0 && env.sink.emitOk(st.emitted) && c.parse(p.next).None?
    ensures var p := env.fetches[st.fetched].page;
      Loop(c, s, endParsed, env, st, trace) ==
        (Fatal(CorruptKey), trace + [Request(st.nextKey), Emit(p.results, st.isFirstPage, LastFlag(s.ignoreLast, p))])
  {
    var p := env.fetches[st.fetched].page;
    assert KeyCheck(c, endParsed, st.nextKey, p.next).None?;
    assert Step(c, s, endParsed, env, st) ==
      Stop(Abort(CorruptKey), [Request(st.nextKey), Emit(p.results, st.isFirstPage, LastFlag(s.ignoreLast, p))]);
  }

  /** The loop goes on exactly when both keys parse, the cursor strictly
      advanced, and the end key (if any) lies strictly beyond the new key. */
  lemma KeyCheckContinues<K>(c: Cursors<K>, endParsed: Option<K>, prev: string, next: Option<string>)
    ensures KeyCheck(c, endParsed, Some(prev), next) == Some(false) <==>
      && c.parse(next).Some? && c.parse(Some(prev)).Some?
      && c.compare(c.parse(Some(prev)).value, c.parse(next).value) < 0
      && (endParsed.None? || c.compare(endParsed.value, c.parse(next).value) > 0)
  {
  }

  /** Emit-then-stop: when the previous key is set and the new key is not
      later, or has reached the end key, the page is emitted with its own
      flags and then the tail runs; no further request is made. */
  lemma CursorStopAfterEmit<K, T>(c: Cursors<K>, s: Settings, endParsed: Option<K>, env: Env<T>, st: LoopState, trace: seq<Event<T>>)
    requires st.fetched < |env.fetches| && env.fetches[st.fetched].Fetched?
    requires var p := env.fetches[st.fetched].page;
      |p.results| > 0 && env.sink.emitOk(st.emitted) && st.nextKey.Some? &&
      c.parse(p.next).Some? && c.parse(st.nextKey).Some?
    requires var p := env.fetches[st.fetched].page;
      var np, pp := c.parse(p.next).value, c.parse(st.nextKey).value;
      c.compare(pp, np) >= 0 || (endParsed.Some? && c.compare(endParsed.value, np) <= 0)
    ensures var p := env.fetches[st.fetched].page;
      Loop(c, s, endParsed, env, st, trace) ==
        Tail(env.sink, trace + [Request(st.nextKey), Emit(p.results, st.isFirstPage, LastFlag(s.ignoreLast, p))])
  {
    var p := env.fetches[st.fetched].page;
    assert KeyCheck(c, endParsed, st.nextKey, p.next) == Some(true);
    AcceptedPage(c, s, endParsed, env, st);
  }

  /** Proof step for an accepted non-empty page: after the emit the cursor
      check ends the iteration gracefully or continues with `record.next`. */
  lemma AcceptedPage<K, T>(c: Cursors<K>, s: Settings, endParsed: Option<K>, env: Env<T>, st: LoopState)
    requires st.fetched < |env.fetches| && env.fetches[st.fetched].Fetched?
    requires var p := env.fetches[st.fetched].page;
      |p.results| > 0 && env.sink.emitOk(st.emitted) && KeyCheck(c, endParsed, st.nextKey, p.next).Some?
    ensures var p := env.fetches[st.fetched].page;
      var ev := [Request(st.nextKey), Emit(p.results, st.isFirstPage, LastFlag(s.ignoreLast, p))];
      Step(c, s, endParsed, env, st) ==
        if LastFlag(s.ignoreLast, p) || KeyCheck(c, endParsed, st.nextKey, p.next).value then Stop(Graceful, ev)
        else Continue(LoopState(0, p.next, false, st.fetched + 1, st.emitted + 1), ev)
  {
  }

  /** The end key is nested inside the previous-key check: with no previous
      key (the first page of a run without a start key) it is never
      consulted, whatever it is. */
  lemma FirstPageIgnoresEndKey<K>(c: Cursors<K>, e1: Option<K>, e2: Option<K>, next: Option<string>)
    ensures KeyCheck(c, e1, None, next) == KeyCheck(c, e2, None, next)
    ensures KeyCheck(c, e1, None, next) == (if c.parse(next).Some? then Some(false) else None)
  {
  }

  // ----- Retries -------------------------------------------------------------

  /** The tolerated number of consecutive failures for a retry limit. */
  function Budget(limit: int): nat {
    if limit < 0 then 0 else limit
  }

  /** `n` failed requests with `key`, each followed by a backoff. */
  function Retries<T>(key: Option<string>, n: nat): seq<Event<T>> {
    if n == 0 then [] else [Request(key), Backoff] + Retries(key, n - 1)
  }

  predicate AllFailed<T>(fetches: seq<Fetch<T>>, from: nat, count: nat) {
    from + count <= |fetches| && forall j :: from <= j < from + count ==> fetches[j].Failed?
  }

  /** Failures below the ceiling add a backoff each, keep the key and resume
      the loop with the error count raised by their number. */
  lemma {:induction false} RetriesBelowCeiling<K, T>(
    c: Cursors<K>, s: Settings, endParsed: Option<K>, env: Env<T>, st: LoopState, trace: seq<Event<T>>, n: nat)
    requires 0 <= st.errorCount && st.errorCount + n <= Budget(s.retryLimit)
    requires AllFailed(env.fetches, st.fetched, n)
    ensures Loop(c, s, endParsed, env, st, trace) ==
      Loop(c, s, endParsed, env, st.(errorCount := st.errorCount + n, fetched := st.fetched + n), trace + Retries(st.nextKey, n))
    decreases n
  {
    if n == 0 {
      assert st.(errorCount := st.errorCount, fetched := st.fetched) == st;
      assert trace + Retries<T>(st.nextKey, 0) == trace;
    } else {
      var st' := st.(errorCount := st.errorCount + 1, fetched := st.fetched + 1);
      assert env.fetches[st.fetched].Failed?;
      assert Step(c, s, endParsed, env, st) == Continue(st', [Request(st.nextKey), Backoff]);
      RetriesBelowCeiling(c, s, endParsed, env, st', trace + [Request(st.nextKey), Backoff], n - 1);
      assert st'.(errorCount := st'.errorCount + (n - 1), fetched := st'.fetched + (n - 1)) ==
        st.(errorCount := st.errorCount + n, fetched := st.fetched + n);
      assert trace + [Request(st.nextKey), Backoff] + Retries(st.nextKey, n - 1) == trace + Retries(st.nextKey, n);
    }
  }

  /** The ceiling at any point of the loop: with `e` failures already
      counted, the next L-e failures are retried on the same key and the one
      after them is fatal, whatever the rest of the script holds. */
  lemma LoopRetryCeiling<K, T>(c: Cursors<K>, s: Settings, endParsed: Option<K>, env: Env<T>, st: LoopState, trace: seq<Event<T>>)
    requires 0 <= st.errorCount <= Budget(s.retryLimit)
    requires AllFailed(env.fetches, st.fetched, Budget(s.retryLimit) - st.errorCount + 1)
    ensures Loop(c, s, endParsed, env, st, trace) ==
      (Fatal(RetryLimitExceeded), trace + Retries(st.nextKey, Budget(s.retryLimit) - st.errorCount) + [Request(st.nextKey)])
  {
    var n := Budget(s.retryLimit) - st.errorCount;
    RetriesBelowCeiling(c, s, endParsed, env, st, trace, n);
    var st' := st.(errorCount := st.errorCount + n, fetched := st.fetched + n);
    assert env.fetches[st.fetched + n].Failed?;
    assert Step(c, s, endParsed, env, st') == Stop(Abort(RetryLimitExceeded), [Request(st.nextKey)]);
  }

  /** Retry ceiling: with limit L, L consecutive failures from a clean count
      are retried on the same key and the (L+1)-th is fatal; nothing is
      emitted. */
  lemma RetryCeiling<K, T>(c: Cursors<K>, s: Settings, env: Env<T>)
    requires Setup(c, s).Some? && env.sink.startOk
    requires AllFailed(env.fetches, 0, Budget(s.retryLimit) + 1)
    ensures var k := Setup(c, s).value.firstKey;
      Run(c, s, env) == (Fatal(RetryLimitExceeded), [Start] + Retries(k, Budget(s.retryLimit)) + [Request(k)])
    ensures NoEmit(Run(c, s, env).1)
  {
    var b := Setup(c, s).value;
    var n := Budget(s.retryLimit);
    LoopRetryCeiling(c, s, b.endParsed, env, Initial(b.firstKey), [Start]);
    RetriesHaveNoEmit<T>(b.firstKey, n);
    NoEmitConcat([Start], Retries<T>(b.firstKey, n));
    NoEmitConcat([Start] + Retries<T>(b.firstKey, n), [Request(b.firstKey)]);
  }

  /** Failures below the ceiling are recovered: after `n <= L` failed
      requests, a non-empty page is emitted as the first page, and all the
      requests used the same key. */
  lemma RetriesThenPage<K, T>(c: Cursors<K>, s: Settings, env: Env<T>, n: nat)
    requires Setup(c, s).Some? && env.sink.startOk
    requires n <= Budget(s.retryLimit) && AllFailed(env.fetches, 0, n)
    requires n < |env.fetches| && env.fetches[n].Fetched? && |env.fetches[n].page.results| > 0
    ensures var k := Setup(c, s).value.firstKey;
      var p := env.fetches[n].page;
      var prefix := [Start] + Retries(k, n) + [Request(k), Emit(p.results, true, LastFlag(s.ignoreLast, p))];
      |prefix| <= |Run(c, s, env).1| && Run(c, s, env).1[..|prefix|] == prefix
  {
    var b := Setup(c, s).value;
    var st := Initial(b.firstKey);
    RetriesBelowCeiling(c, s, b.endParsed, env, st, [Start], n);
    var st' := st.(errorCount := n, fetched := n);
    StepShape(c, s, b.endParsed, env, st');
    LoopExtendsTrace(c, s, b.endParsed, env, st', [Start] + Retries(b.firstKey, n));
    var p := env.fetches[n].page;
    assert Step(c, s, b.endParsed, env, st').events == [Request(b.firstKey), Emit(p.results, true, LastFlag(s.ignoreLast, p))];
  }

  lemma {:induction false} RetriesHaveNoEmit<T>(key: Option<string>, n: nat)
    ensures NoEmit(Retries<T>(key, n))
  {
    if n > 0 {
      RetriesHaveNoEmit<T>(key, n - 1);
      NoEmitConcat<T>([Request(key), Backoff], Retries(key, n - 1));
    }
  }

  /** `e` failures end just before index `end`. */
  ghost predicate FailStreak<T>(fetches: seq<Fetch<T>>, end: nat, e: int) {
    0 <= e <= end <= |fetches| && forall j :: end - e <= j < end ==> fetches[j].Failed?
  }

  /** The converse of the ceiling: the loop gives up on retrying only after
      L+1 consecutive failed requests. */
  lemma {:induction false} LoopRetryFault<K, T>(c: Cursors<K>, s: Settings, endParsed: Option<K>, env: Env<T>, st: LoopState, trace: seq<Event<T>>)
    returns (i: nat)
    requires FailStreak(env.fetches, st.fetched, st.errorCount)
    requires Loop(c, s, endParsed, env, st, trace).0 == Fatal(RetryLimitExceeded)
    ensures AllFailed(env.fetches, i, Budget(s.retryLimit) + 1)
    decreases |env.fetches| - st.fetched
  {
    var r := Step(c, s, endParsed, env, st);
    if r.Continue? {
      i := LoopRetryFault(c, s, endParsed, env, r.state, trace + r.events);
    } else {
      i := st.fetched - st.errorCount;
    }
  }

  /** The converse of the ceiling over a whole run: a retry-limit failure
      means the script holds L+1 consecutive failures, starting at `i`. */
  lemma RetryFaultNeedsConsecutiveFailures<K, T>(c: Cursors<K>, s: Settings, env: Env<T>) returns (i: nat)
    requires Run(c, s, env).0 == Fatal(RetryLimitExceeded)
    ensures AllFailed(env.fetches, i, Budget(s.retryLimit) + 1)
  {
    var b := Setup(c, s).value;
    i := LoopRetryFault(c, s, b.endParsed, env, Initial(b.firstKey), [Start]);
  }

  // ----- Whole-trace properties ---------------------------------------------

  ghost predicate NoEmit<T>(trace: seq<Event<T>>) {
    forall i :: 0 <= i < |trace| ==> !trace[i].Emit?
  }

  lemma NoEmitConcat<T>(a: seq<Event<T>>, b: seq<Event<T>>)
    ensures NoEmit(a + b) <==> NoEmit(a) && NoEmit(b)
  {
    if NoEmit(a) && NoEmit(b) {
      forall i | 0 <= i < |a + b| ensures !(a + b)[i].Emit? {
        if i >= |a| { assert (a + b)[i] == b[i - |a|]; }
      }
    }
    if NoEmit(a + b) {
      forall i | 0 <= i < |a| ensures !a[i].Emit? { assert (a + b)[i] == a[i]; }
      forall i | 0 <= i < |b| ensures !b[i].Emit? { assert (a + b)[|a| + i] == b[i]; }
    }
  }

  /** The loop only ever appends to its trace. */
  lemma {:induction false} LoopExtendsTrace<K, T>(c: Cursors<K>, s: Settings, endParsed: Option<K>, env: Env<T>, st: LoopState, trace: seq<Event<T>>)
    ensures var t := Loop(c, s, endParsed, env, st, trace).1;
      |trace| <= |t| && t[..|trace|] == trace
    ensures st.fetched < |env.fetches| ==>
      var t := Loop(c, s, endParsed, env, st, trace).1;
      var ev := Step(c, s, endParsed, env, st).events;
      |trace + ev| <= |t| && t[..|trace + ev|] == trace + ev
    decreases |env.fetches| - st.fetched
  {
    if st.fetched < |env.fetches| {
      var r := Step(c, s, endParsed, env, st);
      if r.Continue? {
        LoopExtendsTrace(c, s, endParsed, env, r.state, trace + r.events);
        var t := Loop(c, s, endParsed, env, st, trace).1;
        assert t[..|trace + r.events|][..|trace|] == t[..|trace|];
      } else {
        var t := Loop(c, s, endParsed, env, st, trace).1;
        assert t[..|trace + r.events|][..|trace|] == t[..|trace|];
      }
    }
  }

  /** `is_first` is true on an emit exactly when no emit came before it. */
  ghost predicate FirstFlagsExact<T>(trace: seq<Event<T>>) {
    forall i :: 0 <= i < |trace| && trace[i].Emit? ==> (trace[i].first <==> NoEmit(trace[..i]))
  }

  lemma FirstFlagsAppend<T>(trace: seq<Event<T>>, e: Event<T>)
    requires FirstFlagsExact(trace)
    requires e.Emit? ==> (e.first <==> NoEmit(trace))
    ensures FirstFlagsExact(trace + [e])
    ensures NoEmit(trace + [e]) <==> NoEmit(trace) && !e.Emit?
  {
    var t := trace + [e];
    forall i | 0 <= i < |t| && t[i].Emit? ensures t[i].first <==> NoEmit(t[..i]) {
      if i < |trace| { assert t[..i] == trace[..i]; } else { assert t[..i] == trace; }
    }
    NoEmitConcat(trace, [e]);
    assert [e][0] == e;
  }

  lemma {:induction false} LoopFirstFlags<K, T>(c: Cursors<K>, s: Settings, endParsed: Option<K>, env: Env<T>, st: LoopState, trace: seq<Event<T>>)
    requires FirstFlagsExact(trace) && (st.isFirstPage <==> NoEmit(trace))
    ensures FirstFlagsExact(Loop(c, s, endParsed, env, st, trace).1)
    decreases |env.fetches| - st.fetched
  {
    if st.fetched < |env.fetches| {
      var r := Step(c, s, endParsed, env, st);
      StepShape(c, s, endParsed, env, st);
      var ev := r.events;
      FirstFlagsAppend(trace, ev[0]);
      var t := trace + [ev[0]];
      if |ev| == 2 {
        FirstFlagsAppend(t, ev[1]);
        assert trace + ev == t + [ev[1]];
      } else {
        assert trace + ev == t;
      }
      match r
      case Stop(Graceful, _) => FirstFlagsAppend(trace + ev, Finish);
      case Stop(Abort(_), _) =>
      case Continue(next, _) => LoopFirstFlags(c, s, endParsed, env, next, trace + ev);
    }
  }

  /** Emit flags over a whole run: the first emit, and only the first,
      carries `is_first = true`. */
  lemma RunFirstFlags<K, T>(c: Cursors<K>, s: Settings, env: Env<T>)
    ensures FirstFlagsExact(Run(c, s, env).1)
  {
    if Setup(c, s).Some? && env.sink.startOk {
      var b := Setup(c, s).value;
      assert NoEmit<T>([Start]);
      LoopFirstFlags(c, s, b.endParsed, env, Initial(b.firstKey), [Start]);
    }
  }

  /** After an emit flagged last, the only thing that can follow is `finish()`. */
  ghost predicate LastEmitEndsRun<T>(trace: seq<Event<T>>) {
    forall i, j :: 0 <= i < j < |trace| && trace[i].Emit? && trace[i].last ==> trace[j] == Finish
  }

  ghost predicate NoLastEmit<T>(trace: seq<Event<T>>) {
    forall i :: 0 <= i < |trace| && trace[i].Emit? ==> !trace[i].last
  }

  lemma {:induction false} LoopLastEmitEndsRun<K, T>(c: Cursors<K>, s: Settings, endParsed: Option<K>, env: Env<T>, st: LoopState, trace: seq<Event<T>>)
    requires NoLastEmit(trace)
    ensures LastEmitEndsRun(Loop(c, s, endParsed, env, st, trace).1)
    decreases |env.fetches| - st.fetched
  {
    if st.fetched < |env.fetches| {
      var r := Step(c, s, endParsed, env, st);
      StepShape(c, s, endParsed, env, st);
      var t := trace + r.events;
      match r
      case Continue(next, ev) =>
        assert NoLastEmit(t) by {
          forall i | 0 <= i < |t| && t[i].Emit? ensures !t[i].last {
            if i >= |trace| { assert t[i] == ev[i - |trace|]; }
          }
        }
        LoopLastEmitEndsRun(c, s, endParsed, env, next, t);
      case Stop(Graceful, ev) =>
      case Stop(Abort(_), ev) =>
    }
  }

  /** Emit-then-stop over a whole run: once an emit carries `is_last`, no
      further request or emit follows. */
  lemma RunLastEmitEndsRun<K, T>(c: Cursors<K>, s: Settings, env: Env<T>)
    ensures LastEmitEndsRun(Run(c, s, env).1)
  {
    if Setup(c, s).Some? && env.sink.startOk {
      var b := Setup(c, s).value;
      LoopLastEmitEndsRun(c, s, b.endParsed, env, Initial(b.firstKey), [Start]);
    }
  }

  /** The strict sink protocol: `start()` comes first and once; `finish()` is
      called at most once, as the very last interaction, and exactly when the
      loop reached its graceful tail; a malformed range key touches nothing. */
  ghost predicate SinkProtocol<T>(trace: seq<Event<T>>, o: Outcome) {
    && (o == Fatal(MalformedRangeKey) <==> trace == [])
    && (trace != [] ==> trace[0] == Start)
    && (forall i :: 0 < i < |trace| ==> !trace[i].Start?)
    && (forall i :: 0 <= i < |trace| - 1 ==> !trace[i].Finish?)
    && ((trace != [] && trace[|trace| - 1] == Finish) <==> (o == Done || o == Fatal(FinishFailed)))
  }

  lemma {:induction false} LoopSinkProtocol<K, T>(c: Cursors<K>, s: Settings, endParsed: Option<K>, env: Env<T>, st: LoopState, trace: seq<Event<T>>)
    requires trace != [] && trace[0] == Start
    requires forall i :: 0 < i < |trace| ==> !trace[i].Start? && !trace[i].Finish?
    ensures var (o, t) := Loop(c, s, endParsed, env, st, trace); SinkProtocol(t, o) && o != Fatal(StartFailed)
    decreases |env.fetches| - st.fetched
  {
    if st.fetched < |env.fetches| {
      var r := Step(c, s, endParsed, env, st);
      StepShape(c, s, endParsed, env, st);
      var t := trace + r.events;
      assert forall i :: 0 < i < |t| ==> !t[i].Start? && !t[i].Finish? by {
        forall i | 0 < i < |t| ensures !t[i].Start? && !t[i].Finish? {
          if i >= |trace| { assert t[i] == r.events[i - |trace|]; }
        }
      }
      if r.Continue? {
        LoopSinkProtocol(c, s, endParsed, env, r.state, t);
      } else if r.exit.Graceful? {
        var u := t + [Finish];
        assert forall i :: 0 < i < |u| ==> !u[i].Start? by {
          forall i | 0 < i < |u| ensures !u[i].Start? { if i < |t| { assert u[i] == t[i]; } }
        }
        assert forall i :: 0 <= i < |u| - 1 ==> !u[i].Finish? by {
          forall i | 0 <= i < |u| - 1 ensures !u[i].Finish? { assert u[i] == t[i]; }
        }
      }
    }
  }

  lemma RunSinkProtocol<K, T>(c: Cursors<K>, s: Settings, env: Env<T>)
    ensures SinkProtocol(Run(c, s, env).1, Run(c, s, env).0)
  {
    if Setup(c, s).Some? && env.sink.startOk {
      var b := Setup(c, s).value;
      LoopSinkProtocol(c, s, b.endParsed, env, Initial(b.firstKey), [Start]);
    }
  }

  /** The number of request-callback invocations in a trace. */
  function RequestCount<T>(trace: seq<Event<T>>): nat {
    if trace == [] then 0 else (if trace[0].Request? then 1 else 0) + RequestCount(trace[1..])
  }

  lemma {:induction false} RequestCountConcat<T>(a: seq<Event<T>>, b: seq<Event<T>>)
    ensures RequestCount(a + b) == RequestCount(a) + RequestCount(b)
  {
    if a != [] {
      assert (a + b)[1..] == a[1..] + b;
      RequestCountConcat(a[1..], b);
    } else {
      assert a + b == b;
    }
  }

  lemma {:induction false} LoopRequestCount<K, T>(c: Cursors<K>, s: Settings, endParsed: Option<K>, env: Env<T>, st: LoopState, trace: seq<Event<T>>)
    requires RequestCount(trace) == st.fetched <= |env.fetches|
    ensures var (o, t) := Loop(c, s, endParsed, env, st, trace);
      RequestCount(t) <= |env.fetches| && (o == Unfinished ==> RequestCount(t) == |env.fetches|)
    decreases |env.fetches| - st.fetched
  {
    if st.fetched < |env.fetches| {
      var r := Step(c, s, endParsed, env, st);
      StepShape(c, s, endParsed, env, st);
      RequestCountConcat(trace, r.events);
      assert RequestCount(r.events) == 1 by {
        if |r.events| == 2 {
          assert r.events[1..][1..] == [];
          assert RequestCount(r.events[1..]) == 0;
        } else {
          assert r.events[1..] == [];
        }
      }
      if r.Continue? {
        LoopRequestCount(c, s, endParsed, env, r.state, trace + r.events);
      } else if r.exit.Graceful? {
        RequestCountConcat(trace + r.events, [Finish]);
      }
    }
  }

  /** Each scripted outcome serves exactly one request; the model reports
      `Unfinished` only once the whole script has been used. */
  lemma RunRequestCount<K, T>(c: Cursors<K>, s: Settings, env: Env<T>)
    ensures RequestCount(Run(c, s, env).1) <= |env.fetches|
    ensures Run(c, s, env).0 == Unfinished ==> RequestCount(Run(c, s, env).1) == |env.fetches|
  {
    if Setup(c, s).Some? && env.sink.startOk {
      var b := Setup(c, s).value;
      assert RequestCount<T>([Start]) == 0;
      LoopRequestCount(c, s, b.endParsed, env, Initial(b.firstKey), [Start]);
    }
  }

  // ----- A well-formed stream of pages ---------------------------------------

  /** The key the request for page `i` uses. */
  function KeyFor<T>(pages: seq<Page<T>>, first: Option<string>, i: nat): Option<string>
    requires i <= |pages|
  {
    if i == 0 then first else pages[i - 1].next
  }

  /** Page `n` ends the loop: its key parses, and it is flagged last or
      the cursor check stops. */
  ghost predicate StopsAt<K, T>(c: Cursors<K>, s: Settings, endParsed: Option<K>, pages: seq<Page<T>>, first: Option<string>, n: nat)
    requires n < |pages|
  {
    var check := KeyCheck(c, endParsed, KeyFor(pages, first, n), pages[n].next);
    check.Some? && (LastFlag(s.ignoreLast, pages[n]) || check == Some(true))
  }

  /** Non-empty pages, every page but the last continuing (not flagged last,
      cursor strictly advancing, end key not reached) and the last one
      stopping the loop with a key that parses. */
  ghost predicate WellFormedPages<K, T>(c: Cursors<K>, s: Settings, endParsed: Option<K>, pages: seq<Page<T>>, first: Option<string>) {
    && |pages| > 0
    && (forall i :: 0 <= i < |pages| ==> |pages[i].results| > 0)
    && (forall i {:trigger KeyFor(pages, first, i)} :: 0 <= i < |pages| - 1 ==>
          !LastFlag(s.ignoreLast, pages[i]) && KeyCheck(c, endParsed, KeyFor(pages, first, i), pages[i].next) == Some(false))
    && StopsAt(c, s, endParsed, pages, first, |pages| - 1)
  }

  /** The interactions for pages `i..`: a request with the right key, then
      the emit with `is_first` only for page 0. */
  function PagesTrace<T>(pages: seq<Page<T>>, first: Option<string>, ignoreLast: bool, i: nat): seq<Event<T>>
    requires i <= |pages|
    decreases |pages| - i
  {
    if i == |pages| then []
    else [Request(KeyFor(pages, first, i)), Emit(pages[i].results, i == 0, LastFlag(ignoreLast, pages[i]))]
         + PagesTrace(pages, first, ignoreLast, i + 1)
  }

  /** The state at the head of the iteration for page `i`. */
  function PageState<T>(pages: seq<Page<T>>, first: Option<string>, i: nat): LoopState
    requires i <= |pages|
  {
    LoopState(0, KeyFor(pages, first, i), i == 0, i, i)
  }

  lemma PageStep<K, T>(c: Cursors<K>, s: Settings, endParsed: Option<K>, env: Env<T>, pages: seq<Page<T>>, first: Option<string>, i: nat)
    requires WellFormedPages(c, s, endParsed, pages, first) && i < |pages|
    requires |pages| <= |env.fetches| && forall j :: 0 <= j < |pages| ==> env.fetches[j] == Fetched(pages[j])
    requires forall j :: 0 <= j < |pages| ==> env.sink.emitOk(j)
    ensures var ev := [Request(KeyFor(pages, first, i)), Emit(pages[i].results, i == 0, LastFlag(s.ignoreLast, pages[i]))];
      Step(c, s, endParsed, env, PageState(pages, first, i)) ==
        if i < |pages| - 1 then Continue(PageState(pages, first, i + 1), ev) else Stop(Graceful, ev)
  {
    var st := PageState(pages, first, i);
    assert env.fetches[i] == Fetched(pages[i]);
    assert |pages[i].results| > 0 && env.sink.emitOk(i);
    if i < |pages| - 1 {
      assert !LastFlag(s.ignoreLast, pages[i]) && KeyCheck(c, endParsed, KeyFor(pages, first, i), pages[i].next) == Some(false);
    } else {
      assert StopsAt(c, s, endParsed, pages, first, i);
    }
    AcceptedPage(c, s, endParsed, env, st);
  }

  lemma {:induction false} LoopOverPages<K, T>(c: Cursors<K>, s: Settings, endParsed: Option<K>, env: Env<T>, pages: seq<Page<T>>, first: Option<string>, i: nat, trace: seq<Event<T>>)
    requires WellFormedPages(c, s, endParsed, pages, first) && i < |pages|
    requires |pages| <= |env.fetches| && forall j :: 0 <= j < |pages| ==> env.fetches[j] == Fetched(pages[j])
    requires forall j :: 0 <= j < |pages| ==> env.sink.emitOk(j)
    ensures Loop(c, s, endParsed, env, PageState(pages, first, i), trace) ==
      Tail(env.sink, trace + PagesTrace(pages, first, s.ignoreLast, i))
    decreases |pages| - i
  {
    var ev := [Request(KeyFor(pages, first, i)), Emit(pages[i].results, i == 0, LastFlag(s.ignoreLast, pages[i]))];
    PageStep(c, s, endParsed, env, pages, first, i);
    assert PageState(pages, first, i).fetched == i < |env.fetches|;
    if i < |pages| - 1 {
      assert Step(c, s, endParsed, env, PageState(pages, first, i)) == Continue(PageState(pages, first, i + 1), ev);
      assert Loop(c, s, endParsed, env, PageState(pages, first, i), trace) == Loop(c, s, endParsed, env, PageState(pages, first, i + 1), trace + ev);
      LoopOverPages(c, s, endParsed, env, pages, first, i + 1, trace + ev);
      assert trace + ev + PagesTrace(pages, first, s.ignoreLast, i + 1) == trace + PagesTrace(pages, first, s.ignoreLast, i);
    } else {
      assert Step(c, s, endParsed, env, PageState(pages, first, i)) == Stop(Graceful, ev);
      assert Loop(c, s, endParsed, env, PageState(pages, first, i), trace) == Tail(env.sink, trace + ev);
      assert PagesTrace(pages, first, s.ignoreLast, i + 1) == [];
      assert PagesTrace(pages, first, s.ignoreLast, i) == ev + [];
      assert ev + [] == ev;
    }
  }

  /** A well-formed stream is emitted page by page in order, each request
      threading the previous page's `next`, `is_first` only on the first
      emit, and `finish()` is called once at the end. */
  lemma {:induction false} WellFormedPagesEmitAll<K, T>(c: Cursors<K>, s: Settings, env: Env<T>, pages: seq<Page<T>>)
    requires Setup(c, s).Some? && env.sink.startOk
    requires WellFormedPages(c, s, Setup(c, s).value.endParsed, pages, Setup(c, s).value.firstKey)
    requires |pages| <= |env.fetches| && forall j :: 0 <= j < |pages| ==> env.fetches[j] == Fetched(pages[j])
    requires forall j :: 0 <= j < |pages| ==> env.sink.emitOk(j)
    ensures Run(c, s, env) ==
      (if env.sink.finishOk then Done else Fatal(FinishFailed),
       [Start] + PagesTrace(pages, Setup(c, s).value.firstKey, s.ignoreLast, 0) + [Finish])
  {
    var b := Setup(c, s).value;
    LoopOverPages(c, s, b.endParsed, env, pages, b.firstKey, 0, [Start]);
    assert Initial(b.firstKey) == PageState(pages, b.firstKey, 0);
  }
}
