/**
 * The client object: the configuration fixed at construction, the fields
 * its methods update (`_page_size`, `_page_size_temporarily_disabled`,
 * `_start_key`, `_end_key`), the paged-request loop and the in-place
 * reference expansion.
 *
 * `PagedRequest` is the `for (;;)` loop of `_paged_request` written as a
 * loop over the same local variables; its contract ties it to
 * `Paging.Run`, about which the lemmas of `PagingProperties` are proved.
 * The reparenting methods overwrite posts in an array and are tied to the
 * functions of `Expansion` in the same way.
 */
module Client {
  import opened Wrappers
  import opened JsonValues
  import opened Paging
  import opened Expansion
  import Requests
  import PagingProperties

  /** The constructor options the model covers; `pageSize` is the option
      after `parseInt` (`None` for an absent option or `NaN`). */
  datatype Options = Options(
    retryLimit: Option<int>,
    expandFields: Json,
    pageSize: Option<int>,
    ignoreLast: Json,
    domain: Option<string>)

  /** `options.retry_limit || 10`. */
  function RetryLimit(option: Option<int>): (r: int)
    ensures r != 0
    ensures option.Some? && option.value != 0 ==> r == option.value
    ensures option.None? || option.value == 0 ==> r == 10
  {
    if option.Some? && option.value != 0 then option.value else 10
  }

  /** The retries the configured limit allows: a positive option, none for
      a negative one, and 10 when the option is absent or 0. */
  function RetriesAllowed(option: Option<int>): nat {
    if option.Some? && option.value > 0 then option.value
    else if option.Some? && option.value < 0 then 0
    else 10
  }

  /** The ceiling the constructor sets: with the limit taken from the
      option, exactly `RetriesAllowed(option)` failed requests are retried on
      the same key and the next one is fatal, before anything is emitted
      (ten retries and a fatal eleventh failure by default). */
  lemma ConfiguredRetryCeiling<K, T>(option: Option<int>, c: Cursors<K>, s: Settings, env: Env<T>)
    requires s.retryLimit == RetryLimit(option) && Setup(c, s).Some? && env.sink.startOk
    requires PagingProperties.AllFailed(env.fetches, 0, RetriesAllowed(option) + 1)
    ensures var k := Setup(c, s).value.firstKey;
      Run(c, s, env) == (Fatal(RetryLimitExceeded), [Start] + PagingProperties.Retries(k, RetriesAllowed(option)) + [Request(k)])
    ensures PagingProperties.NoEmit(Run(c, s, env).1)
  {
    assert PagingProperties.Budget(s.retryLimit) == RetriesAllowed(option);
    PagingProperties.RetryCeiling(c, s, env);
  }

  class Client {
    const retryLimit: int
    const expandFields: Json
    const pageSizeOverride: Option<int>
    const ignoreLast: bool
    const domain: string

    var pageSize: Option<int>
    var pageSizeTemporarilyDisabled: bool
    var startKey: Option<string>
    var endKey: Option<string>

    constructor (options: Options)
      ensures retryLimit == RetryLimit(options.retryLimit)
      ensures expandFields == (if Truthy(options.expandFields) then options.expandFields else Obj(map[]))
      ensures pageSizeOverride == (if Requests.Nonzero(options.pageSize) then options.pageSize else None)
      ensures ignoreLast == Truthy(options.ignoreLast)
      ensures domain == (if options.domain.Some? && options.domain.value != "" then options.domain.value else "parler.com")
      ensures pageSize == None && !pageSizeTemporarilyDisabled && startKey == None && endKey == None
    {
      retryLimit := RetryLimit(options.retryLimit);
      expandFields := if Truthy(options.expandFields) then options.expandFields else Obj(map[]);
      pageSizeOverride := if Requests.Nonzero(options.pageSize) then options.pageSize else None;
      ignoreLast := Truthy(options.ignoreLast);
      domain := if options.domain.Some? && options.domain.value != "" then options.domain.value else "parler.com";
      pageSize := None;
      pageSizeTemporarilyDisabled := false;
      startKey := None;
      endKey := None;
    }

    // ----- Accessors ---------------------------------------------------------

    /** The `start_key` setter: a falsy key is stored as `null`. */
    method SetStartKey(key: Option<string>)
      modifies this`startKey
      ensures startKey == (if Present(key) then key else None)
      ensures startKey.Some? ==> startKey.value != ""
    {
      startKey := if Present(key) then key else None;
    }

    /** The `end_key` setter: a falsy key is stored as `null`. */
    method SetEndKey(key: Option<string>)
      modifies this`endKey
      ensures endKey == (if Present(key) then key else None)
      ensures endKey.Some? ==> endKey.value != ""
    {
      endKey := if Present(key) then key else None;
    }

    /** The `page_size` getter. */
    function PageSize(): Option<int>
      reads this
    {
      Requests.EffectivePageSize(pageSizeOverride, pageSize)
    }

    /** The `page_size` setter, given the value after `parseInt`. */
    method SetPageSize(requested: Option<int>)
      modifies this`pageSize
      ensures pageSize == Requests.SetPageSizeValue(pageSizeOverride, old(pageSize), requested)
      ensures Requests.Nonzero(pageSizeOverride) ==> PageSize() == pageSizeOverride
      ensures !Requests.Nonzero(pageSizeOverride) && requested.Some? && requested.value > 0 ==> PageSize() == requested
    {
      if Requests.Nonzero(pageSizeOverride) {
        return;
      }
      if requested.Some? && requested.value > 0 {
        pageSize := requested;
      }
    }

    /** `_temporarily_disable_page_size`: the next requests go without `&limit=`. */
    method TemporarilyDisablePageSize()
      modifies this`pageSizeTemporarilyDisabled
      ensures pageSizeTemporarilyDisabled
    {
      pageSizeTemporarilyDisabled := true;
    }

    /** The URL `_paged_request_one` fetches: `fromCallback` is what the URL
        callback returned (see `Requests.DefaultQuery` for the default one). */
    function PagedUrl(url: string, fromCallback: Option<string>, key: Option<string>, enc: string -> string): (r: string)
      reads this
      ensures r == url <==> Requests.QueryBase(fromCallback) == "" && pageSizeTemporarilyDisabled && !Present(key)
      ensures |url| <= |r| && r[..|url|] == url
    {
      Requests.RequestUrl(url, Requests.QueryString(fromCallback, pageSizeTemporarilyDisabled, PageSize(), key, enc))
    }

    /** The extra headers of a request, as `_create_extra_headers` evidently
        intends them (see `Requests.ExtraHeadersAsWritten` for the code as written). */
    function ExtraHeaders(args: Json, enc: string -> string): (r: Requests.Headers)
      ensures r.acceptLanguage == "en-us"
      ensures !Truthy(args) ==> r.referrer == "https://" + domain
    {
      Requests.ExtraHeaders(args, domain, enc)
    }

    // ----- Paging -------------------------------------------------------------

    /** The settings `_paged_request` reads from the object. */
    function LoopSettings(): Paging.Settings
      reads this
    {
      Paging.Settings(retryLimit, ignoreLast, startKey, endKey)
    }

    /** `_paged_request`, with the request callback's outcomes in
        `env.fetches` and the emitter's replies in `env.sink`. The graceful
        tail clears the page-size suppression before `finish()` and resets
        the start key only after `finish()` succeeds; a fatal exit changes
        neither field. */
    method PagedRequest<K, T>(c: Cursors<K>, env: Env<T>) returns (outcome: Outcome, trace: seq<Event<T>>)
      modifies this`pageSizeTemporarilyDisabled, this`startKey
      ensures (outcome, trace) == Run(c, old(LoopSettings()), env)
      ensures pageSizeTemporarilyDisabled ==
        (if outcome == Done || outcome == Fatal(FinishFailed) then false else old(pageSizeTemporarilyDisabled))
      ensures startKey == (if outcome == Done then None else old(startKey))
    {
      var s := LoopSettings();
      var bounds := Setup(c, s);
      if bounds.None? {
        return Fatal(MalformedRangeKey), [];
      }
      trace := [Start];
      if !env.sink.startOk {
        return Fatal(StartFailed), trace;
      }
      var endParsed := bounds.value.endParsed;
      var errorCount := 0;
      var nextKey := bounds.value.firstKey;
      var isFirstPage := true;
      var isFinalPage := false;
      var fetched: nat := 0;
      var emitted: nat := 0;
      while true
        invariant fetched <= |env.fetches|
        invariant !isFinalPage
        invariant Run(c, s, env) == Loop(c, s, endParsed, env, LoopState(errorCount, nextKey, isFirstPage, fetched, emitted), trace)
        invariant pageSizeTemporarilyDisabled == old(pageSizeTemporarilyDisabled) && startKey == old(startKey)
        decreases |env.fetches| - fetched
      {
        if fetched == |env.fetches| {
          return Unfinished, trace;
        }
        ghost var st := LoopState(errorCount, nextKey, isFirstPage, fetched, emitted);
        ghost var before := trace;
        trace := trace + [Request(nextKey)];
        var fetch := env.fetches[fetched];
        fetched := fetched + 1;
        if fetch.Failed? {
          if errorCount >= retryLimit {
            return Fatal(RetryLimitExceeded), trace;
          }
          errorCount := errorCount + 1;
          trace := trace + [Backoff];
          assert trace == before + ([Request(st.nextKey)] + [Backoff]);
          continue;
        }
        var record := fetch.page;
        if |record.results| == 0 {
          break;
        }
        if LastFlag(ignoreLast, record) {
          isFinalPage := true;
        }
        trace := trace + [Emit(record.results, isFirstPage, isFinalPage)];
        assert trace == before + ([Request(st.nextKey)] + [Emit(record.results, isFirstPage, isFinalPage)]);
        if !env.sink.emitOk(emitted) {
          return Fatal(DispatchFailed), trace;
        }
        emitted := emitted + 1;
        var prevKey := nextKey;
        nextKey := record.next;
        var nextParsed := c.parse(nextKey);
        if nextParsed.None? {
          return Fatal(CorruptKey), trace;
        }
        if prevKey.Some? {
          var prevParsed := c.parse(prevKey);
          if prevParsed.None? {
            return Fatal(CorruptKey), trace;
          }
          if c.compare(prevParsed.value, nextParsed.value) >= 0 {
            isFinalPage := true;
          }
          if endParsed.Some? {
            if c.compare(endParsed.value, nextParsed.value) <= 0 {
              isFinalPage := true;
            }
          }
        }
        errorCount := 0;
        isFirstPage := false;
        if isFinalPage {
          break;
        }
      }
      assert Run(c, s, env) == Tail(env.sink, trace);
      pageSizeTemporarilyDisabled := false;
      trace := trace + [Finish];
      if !env.sink.finishOk {
        return Fatal(FinishFailed), trace;
      }
      startKey := None;
      return Done, trace;
    }

    // ----- Reference expansion, in place -------------------------------------

    /** `_reparent_one(targets[i], hash, key)`: the target is replaced in
        its array by its expanded form, also when an id inside an array
        field fails part-way. */
    method ReparentOne(hash: RefHash, targets: array<Json>, i: nat, key: string) returns (failure: Option<Failure>)
      requires i < targets.Length && IsObjectType(targets[i])
      modifies targets
      ensures var e := ReparentField(expandFields, hash, old(targets[i]), i, key);
        targets[..] == old(targets[..])[i := e.after] && failure == e.failure
    {
      var target := targets[i];
      if !Enabled(expandFields, key) {
        return None;
      }
      if target.Null? {
        return Some(NullTarget(i));
      }
      var value := Member(target, key);
      if !Truthy(value) {
        return None;
      }
      if value.Arr? {
        var ids := new Json[|value.items|](j requires 0 <= j < |value.items| => value.items[j]);
        assert ids[..] == value.items;
        failure := ResolveIds(hash, ids);
        targets[i] := Assign(target, key, Arr(ids[..]));
      } else {
        match Resolve(hash, value)
        case Some(ref) =>
          targets[i] := Assign(target, key, ref);
          failure := None;
        case None =>
          failure := Some(Dangling(PropertyKey(value)));
      }
    }

    /** `_reparent(targets, refs, keys)`: build the table, then expand the
        fields `keys` of every target in order, stopping at the first failure
        with the targets as far as they got. */
    method Reparent(targets: array<Json>, refs: seq<Json>, keys: seq<string>) returns (failure: Option<Failure>)
      modifies targets
      ensures Effect(targets[..], failure) == Expansion.Reparent(expandFields, old(targets[..]), refs, keys)
    {
      var table := BuildRefHash(refs);
      if table.Err? {
        return Some(table.error);
      }
      var hash := table.value;
      var i := 0;
      while i < targets.Length
        invariant 0 <= i <= targets.Length
        invariant ReparentFrom(expandFields, hash, targets[..], keys, i) == ReparentFrom(expandFields, hash, old(targets[..]), keys, 0)
      {
        if !IsObjectType(targets[i]) {
          return Some(TargetNotObject(i));
        }
        ghost var before := targets[..];
        ghost var start := targets[i];
        var k := 0;
        while k < |keys|
          invariant 0 <= k <= |keys|
          invariant targets[..] == before[i := targets[i]]
          invariant ReparentKeys(expandFields, hash, start, i, keys) == ReparentKeys(expandFields, hash, targets[i], i, keys[k..])
          invariant IsObjectType(targets[i])
        {
          ghost var current := targets[i];
          failure := ReparentOne(hash, targets, i, keys[k]);
          FieldFrame(expandFields, hash, current, i, keys[k]);
          assert keys[k..][0] == keys[k] && keys[k..][1..] == keys[k + 1..];
          if failure.Some? {
            assert ReparentKeys(expandFields, hash, start, i, keys) == Effect(targets[i], failure);
            assert ReparentFrom(expandFields, hash, before, keys, i) == Effect(before[i := targets[i]], failure);
            assert targets[..] == before[i := targets[i]];
            return;
          }
          k := k + 1;
        }
        assert ReparentKeys(expandFields, hash, start, i, keys) == Effect(targets[i], None);
        i := i + 1;
      }
      return None;
    }

    /** `_reparent_all(o)`: the three passes over `o.posts`, each stopping the
        rest when it fails. */
    method ReparentAll(o: Json) returns (r: Effect<Json>)
      ensures r == Expansion.ReparentAll(expandFields, o)
    {
      if o.Undefined? || o.Null? {
        return Effect(o, Some(NoPayload));
      }
      var items := Elements(Member(o, "posts"));
      var posts := new Json[|items|](j requires 0 <= j < |items| => items[j]);
      assert posts[..] == items;
      var failure := Reparent(posts, Elements(Member(o, "users")), ["creator"]);
      if failure.None? {
        failure := Reparent(posts, Elements(Member(o, "postRefs")), ["parent", "root"]);
      }
      if failure.None? {
        failure := Reparent(posts, Elements(Member(o, "urls")), ["links"]);
      }
      return Effect(WithPosts(o, posts[..]), failure);
    }
  }
}
