/**
 * The pure pieces of one HTTP request: the page-size rule (an override set
 * at construction beats the value given to the setter), the query string
 * and URL of `_paged_request_one`, and the extra headers with their
 * `Referrer`.
 *
 * `encodeURIComponent` is the parameter `enc`; nothing is assumed about it.
 * Integers are rendered with `IntText`, which `encodeURIComponent` leaves
 * as they are (digits and `-` are never escaped).
 */
module Requests {
  import opened Wrappers
  import opened JsonValues

  // ----- Page size ---------------------------------------------------------

  /** An override or page size is truthy when it is a non-zero number;
      `None` stands for `null`, `undefined` and `NaN`. */
  predicate Nonzero(size: Option<int>) {
    size.Some? && size.value != 0
  }

  /** `_page_size_override || _page_size`. */
  function EffectivePageSize(override: Option<int>, pageSize: Option<int>): (r: Option<int>)
    ensures Nonzero(override) ==> r == override
    ensures !Nonzero(override) ==> r == pageSize
  {
    if Nonzero(override) then override else pageSize
  }

  /** The new `_page_size` after the setter is given `requested` (already
      through `parseInt`): no change while an override is set, and no change
      for a value that is not positive. */
  function SetPageSizeValue(override: Option<int>, pageSize: Option<int>, requested: Option<int>): Option<int> {
    if Nonzero(override) then pageSize
    else if requested.Some? && requested.value > 0 then requested
    else pageSize
  }

  /** Reading the page size back after setting it: the override when there
      is one, otherwise the requested value if it is positive, otherwise
      what was read before. */
  lemma SetterReadBack(override: Option<int>, pageSize: Option<int>, requested: Option<int>)
    ensures var after := EffectivePageSize(override, SetPageSizeValue(override, pageSize, requested));
      && (Nonzero(override) ==> after == override)
      && (!Nonzero(override) && requested.Some? && requested.value > 0 ==> after == requested)
      && (!(requested.Some? && requested.value > 0) ==> after == EffectivePageSize(override, pageSize))
  {
  }

  /** The stored page size after the setter has been given `requests`, in order. */
  function SetAll(override: Option<int>, pageSize: Option<int>, requests: seq<Option<int>>): Option<int>
    decreases |requests|
  {
    if |requests| == 0 then pageSize
    else SetPageSizeValue(override, SetAll(override, pageSize, requests[..|requests| - 1]), requests[|requests| - 1])
  }

  /** The last positive value among `requests`, if any. */
  function LastPositive(requests: seq<Option<int>>): (r: Option<int>)
    ensures r.Some? ==> r in requests && r.value > 0
    decreases |requests|
  {
    if |requests| == 0 then None
    else if requests[|requests| - 1].Some? && requests[|requests| - 1].value > 0 then requests[|requests| - 1]
    else LastPositive(requests[..|requests| - 1])
  }

  /** The getter after any sequence of setter calls: the override when one is
      set, whatever the calls were; otherwise the last positive value given,
      or the starting value when no call gave one. */
  lemma {:induction false} ReadingAfterSetters(override: Option<int>, pageSize: Option<int>, requests: seq<Option<int>>)
    ensures SetAll(override, pageSize, requests) ==
      if Nonzero(override) || LastPositive(requests).None? then pageSize else LastPositive(requests)
    ensures EffectivePageSize(override, SetAll(override, pageSize, requests)) ==
      if Nonzero(override) then override else if LastPositive(requests).Some? then LastPositive(requests) else pageSize
    decreases |requests|
  {
    if |requests| > 0 {
      ReadingAfterSetters(override, pageSize, requests[..|requests| - 1]);
    }
  }

  /** Setting the same value twice is the same as setting it once. */
  lemma SetterIdempotent(override: Option<int>, pageSize: Option<int>, requested: Option<int>)
    ensures var once := SetPageSizeValue(override, pageSize, requested);
      SetPageSizeValue(override, once, requested) == once
  {
  }

  /** The setter never stores a value that is not positive: a positive page
      size stays positive through any sequence of calls. */
  lemma SetterKeepsPositive(override: Option<int>, pageSize: Option<int>, requested: Option<int>)
    requires pageSize.Some? ==> pageSize.value > 0
    ensures var after := SetPageSizeValue(override, pageSize, requested);
      after.Some? ==> after.value > 0
  {
  }

  // ----- Query string and URL ---------------------------------------------

  /** What `encodeURIComponent(this.page_size)` gives: `"undefined"` exactly
      when no page size was ever set, otherwise decimal text that reads back
      as the page size. */
  function SizeText(size: Option<int>): (r: string)
    ensures r != ""
    ensures r == "undefined" <==> size.None?
    ensures size.Some? ==> IntValue(r) == size.value
  {
    if size.Some? then IntText(size.value) else "undefined"
  }

  /** The default URL callback: `id=<_id>` when the profile's `_id` is truthy,
      `null` otherwise (`profile` is already `_profile || {}`). */
  function DefaultQuery(profile: Json, enc: string -> string): (r: Option<string>)
    ensures r.Some? <==> Truthy(Member(profile, "_id"))
    ensures r.Some? ==> |r.value| >= 3 && r.value[..3] == "id="
    ensures !profile.Obj? ==> r.None?
  {
    var id := Member(profile, "_id");
    if Truthy(id) then Some("id=" + enc(PropertyKey(id))) else None
  }

  /** `(url_callback(...) || '')`. */
  function QueryBase(fromCallback: Option<string>): string {
    if fromCallback.Some? then fromCallback.value else ""
  }

  function LimitPart(disabled: bool, size: Option<int>): string {
    if disabled then "" else "&limit=" + SizeText(size)
  }

  function StartPart(startKey: Option<string>, enc: string -> string): string {
    if startKey.Some? && startKey.value != "" then "&startkey=" + enc(startKey.value) else ""
  }

  /** The query string: the callback's part, then `&limit=` unless page size
      is suppressed, then `&startkey=` for a non-empty start key. */
  function QueryString(fromCallback: Option<string>, disabled: bool, size: Option<int>, startKey: Option<string>, enc: string -> string): (qs: string)
    ensures |QueryBase(fromCallback)| <= |qs| && qs[..|QueryBase(fromCallback)|] == QueryBase(fromCallback)
    ensures qs == "" <==> QueryBase(fromCallback) == "" && disabled && !(startKey.Some? && startKey.value != "")
  {
    QueryBase(fromCallback) + LimitPart(disabled, size) + StartPart(startKey, enc)
  }

  /** `?qs` is added only when `qs` is not empty. */
  function RequestUrl(url: string, qs: string): (r: string)
    ensures r == url <==> qs == ""
    ensures |url| <= |r| && r[..|url|] == url
    ensures qs != "" ==> r[|url|] == '?' && r[|url| + 1..] == qs
  {
    if qs == "" then url else url + "?" + qs
  }

  /** The limit parameter appears exactly when page size is not suppressed,
      and it carries the page size. */
  lemma LimitParameter(fromCallback: Option<string>, disabled: bool, size: Option<int>, startKey: Option<string>, enc: string -> string)
    ensures var qs := QueryString(fromCallback, disabled, size, startKey, enc);
      var b := QueryBase(fromCallback);
      var limit := "&limit=" + SizeText(size);
      && (!disabled ==> |b| + |limit| <= |qs| && qs[|b|..|b| + |limit|] == limit)
      && (disabled ==> forall other :: QueryString(fromCallback, disabled, other, startKey, enc) == qs)
      && (disabled ==> QueryString(fromCallback, disabled, size, None, enc) == b)
  {
    var qs := QueryString(fromCallback, disabled, size, startKey, enc);
    var b := QueryBase(fromCallback);
    var limit := "&limit=" + SizeText(size);
    if !disabled {
      assert qs == b + limit + StartPart(startKey, enc);
      assert qs[|b|..|b| + |limit|] == limit;
    }
  }

  /** `&startkey=` and the encoded key are appended, last, exactly when the
      start key is truthy; otherwise the query is the one without a key. */
  lemma StartKeyParameter(fromCallback: Option<string>, disabled: bool, size: Option<int>, startKey: Option<string>, enc: string -> string)
    ensures !(startKey.Some? && startKey.value != "") ==>
      QueryString(fromCallback, disabled, size, startKey, enc) == QueryString(fromCallback, disabled, size, None, enc)
    ensures startKey.Some? && startKey.value != "" ==>
      QueryString(fromCallback, disabled, size, startKey, enc) ==
        QueryString(fromCallback, disabled, size, None, enc) + "&startkey=" + enc(startKey.value)
  {
  }

  /** While an override is set, the limit parameter is the override whatever
      the setter was given before. */
  lemma OverrideFixesLimit(fromCallback: Option<string>, override: Option<int>, pageSize: Option<int>, requested: Option<int>, startKey: Option<string>, enc: string -> string)
    requires Nonzero(override)
    ensures QueryString(fromCallback, false, EffectivePageSize(override, SetPageSizeValue(override, pageSize, requested)), startKey, enc)
         == QueryBase(fromCallback) + "&limit=" + IntText(override.value) + StartPart(startKey, enc)
  {
    var size := EffectivePageSize(override, SetPageSizeValue(override, pageSize, requested));
    assert size == override;
    var b, text, start := QueryBase(fromCallback), IntText(override.value), StartPart(startKey, enc);
    assert SizeText(size) == text;
    assert QueryString(fromCallback, false, size, startKey, enc) == b + ("&limit=" + text) + start;
    assert b + ("&limit=" + text) + start == b + "&limit=" + text + start;
  }

  // ----- Extra headers --------------------------------------------------------

  datatype Headers = Headers(acceptLanguage: string, referrer: string)

  /** The page suffix of the Referrer: the username's posts, else the post
      with that id, else the hashtag; nothing when none of the three is truthy. */
  function ReferrerSuffix(args: Json, enc: string -> string): string {
    if Truthy(Member(args, "username")) then "/profile/" + enc(PropertyKey(Member(args, "username"))) + "/posts"
    else if Truthy(Member(args, "id")) then "/post-view?q=" + enc(PropertyKey(Member(args, "id")))
    else if Truthy(Member(args, "tag")) then "/?hashtag=" + enc(PropertyKey(Member(args, "tag")))
    else ""
  }

  /** The Referrer before its suffix: the caller's `referrer` when truthy,
      otherwise the site root. */
  function ReferrerBase(referrer: Json, domain: string): string {
    if Truthy(referrer) then PropertyKey(referrer) else "https://" + domain
  }

  /** `_create_extra_headers` as evidently intended: every field is read from
      `args = (_args || {})`, so a missing argument gives the site root. */
  function ExtraHeaders(argsParam: Json, domain: string, enc: string -> string): (r: Headers)
    ensures r.acceptLanguage == "en-us"
    ensures !Truthy(argsParam) ==> r.referrer == "https://" + domain
    ensures var base := ReferrerBase(Member(argsParam, "referrer"), domain);
      && |base| <= |r.referrer| && r.referrer[..|base|] == base
      && (r.referrer == base <==>
            !Truthy(Member(argsParam, "username")) && !Truthy(Member(argsParam, "id")) && !Truthy(Member(argsParam, "tag")))
  {
    var args := if Truthy(argsParam) then argsParam else Obj(map[]);
    Headers("en-us", ReferrerBase(Member(args, "referrer"), domain) + ReferrerSuffix(args, enc))
  }

  /** `_create_extra_headers` as written: the `referrer` is read from `_args`
      itself, which throws a TypeError when `_args` is null or undefined. */
  function ExtraHeadersAsWritten(argsParam: Json, domain: string, enc: string -> string): Result<Headers, string> {
    if argsParam.Null? || argsParam.Undefined? then Err("TypeError: cannot read property 'referrer'")
    else
      var args := if Truthy(argsParam) then argsParam else Obj(map[]);
      Ok(Headers("en-us", ReferrerBase(Member(argsParam, "referrer"), domain) + ReferrerSuffix(args, enc)))
  }

  /** The two agree on every argument except a missing one, which the
      written code rejects although it evidently meant to default it. */
  lemma AsWrittenDiffers(argsParam: Json, domain: string, enc: string -> string)
    ensures ExtraHeadersAsWritten(argsParam, domain, enc).Err? <==> argsParam.Null? || argsParam.Undefined?
    ensures ExtraHeadersAsWritten(argsParam, domain, enc).Ok? ==>
      ExtraHeadersAsWritten(argsParam, domain, enc).value == ExtraHeaders(argsParam, domain, enc)
    ensures ExtraHeaders(Undefined, domain, enc).referrer == "https://" + domain
  {
    if !Truthy(argsParam) {
      assert Member(argsParam, "referrer") == Undefined;
    }
  }

  /** The Referrer starts with the base, and the fields take precedence
      username over id over tag: a lower one is ignored when a higher one is
      truthy, and the Referrer is the bare base when none is. */
  lemma ReferrerPrecedence(args: Json, domain: string, enc: string -> string)
    requires args.Obj?
    ensures var r := ExtraHeaders(args, domain, enc).referrer;
      var base := ReferrerBase(Member(args, "referrer"), domain);
      && |base| <= |r| && r[..|base|] == base
      && (Truthy(Member(args, "username")) ==>
            forall id, tag :: ExtraHeaders(Assign(Assign(args, "id", id), "tag", tag), domain, enc).referrer == r)
      && (!Truthy(Member(args, "username")) && Truthy(Member(args, "id")) ==>
            forall tag :: ExtraHeaders(Assign(args, "tag", tag), domain, enc).referrer == r)
      && (r == base <==> !Truthy(Member(args, "username")) && !Truthy(Member(args, "id")) && !Truthy(Member(args, "tag")))
  {
    var r := ExtraHeaders(args, domain, enc).referrer;
    var base := ReferrerBase(Member(args, "referrer"), domain);
    assert r == base + ReferrerSuffix(args, enc);
  }
}
