/**
 * Reference expansion ("reparenting"): a response carries its posts with
 * foreign-key fields (`creator`, `parent`, `root`, `links`) holding ids,
 * next to sibling arrays of full records (`users`, `postRefs`, `urls`).
 * Expansion builds an id -> record table from a sibling array and replaces
 * each enabled field of each post by the record(s) its id(s) name.
 *
 * The functions here are the specification; the loops that perform the
 * same work in place are `BuildRefHash` and `ResolveIds` below and the
 * reparenting methods of `Client.Client`.
 *
 * The source mutates the posts while it works and throws on the first
 * problem, so what a caller observes after a failure is a partially
 * expanded payload. Every operation therefore yields an `Effect`: the
 * state afterwards together with the failure, if any.
 */
module Expansion {
  import opened Wrappers
  import opened JsonValues

  datatype Failure =
    | RefNotObject(refIndex: nat)        // `typeof _refs[i] !== 'object'`
    | NullRef(refIndex: nat)             // `_refs[i]` is null: reading `.id` throws
    | TargetNotObject(targetIndex: nat)  // `typeof _targets[i] !== 'object'`
    | NullTarget(targetIndex: nat)       // `_targets[i]` is null: reading a field throws
    | Dangling(id: string)               // an id that is not in the table
    | NoPayload                          // the payload itself is null or undefined

  /** The state after an operation and the failure that stopped it, if any. */
  datatype Effect<V> = Effect(after: V, failure: Option<Failure>)

  /** The id -> record table (`refhash`). */
  type RefHash = map<string, Json>

  // ----- Building the table ----------------------------------------------

  /** A reference the table accepts: `typeof` is `'object'` and it is not null. */
  predicate UsableRef(r: Json) {
    r.Arr? || r.Obj?
  }

  /** The id of a record: its `id` when that is truthy, its `_id` otherwise. */
  function RefId(r: Json): Json {
    if Truthy(Member(r, "id")) then Member(r, "id") else Member(r, "_id")
  }

  /** The table key a record is stored under. */
  function RefKey(r: Json): string {
    PropertyKey(RefId(r))
  }

  /** The table built from `refs[i..]` on top of `h`: the first unusable
      reference fails, a later record overwrites an earlier one with the same key. */
  function BuildFrom(refs: seq<Json>, i: nat, h: RefHash): Result<RefHash, Failure>
    requires i <= |refs|
    decreases |refs| - i
  {
    if i == |refs| then Ok(h)
    else if !IsObjectType(refs[i]) then Err(RefNotObject(i))
    else if refs[i].Null? then Err(NullRef(i))
    else BuildFrom(refs, i + 1, h[RefKey(refs[i]) := refs[i]])
  }

  function RefHashOf(refs: seq<Json>): Result<RefHash, Failure> {
    BuildFrom(refs, 0, map[])
  }

  /** Reference definition of the table: the last record in `refs` stored
      under key `k`. */
  function LastRef(refs: seq<Json>, k: string): (r: Option<Json>)
    ensures r.Some? ==> r.value in refs && RefKey(r.value) == k
    ensures r.None? ==> forall i :: 0 <= i < |refs| ==> RefKey(refs[i]) != k
    decreases |refs|
  {
    if |refs| == 0 then None
    else if RefKey(refs[|refs| - 1]) == k then Some(refs[|refs| - 1])
    else LastRef(refs[..|refs| - 1], k)
  }

  /** The table `h` holds exactly the last record of `refs` under each key. */
  ghost predicate Agrees(h: RefHash, refs: seq<Json>) {
    forall k :: (k in h <==> LastRef(refs, k).Some?) && (k in h ==> h[k] == LastRef(refs, k).value)
  }

  /** Index of the first unusable reference at or after `i`, or `|refs|`. */
  function FirstUnusable(refs: seq<Json>, i: nat): (j: nat)
    requires i <= |refs|
    ensures i <= j <= |refs|
    ensures forall m :: i <= m < j ==> UsableRef(refs[m])
    ensures j < |refs| ==> !UsableRef(refs[j])
    decreases |refs| - i
  {
    if i == |refs| || !UsableRef(refs[i]) then i else FirstUnusable(refs, i + 1)
  }

  /** The failure the table reports for an unusable reference at index `j`. */
  function RefFailure(refs: seq<Json>, j: nat): Failure
    requires j < |refs|
  {
    if refs[j].Null? then NullRef(j) else RefNotObject(j)
  }

  lemma {:induction false} BuildFromSpec(refs: seq<Json>, i: nat, h: RefHash)
    requires i <= |refs| && Agrees(h, refs[..i])
    ensures var j := FirstUnusable(refs, i);
      if j < |refs| then BuildFrom(refs, i, h) == Err(RefFailure(refs, j))
      else BuildFrom(refs, i, h).Ok? && Agrees(BuildFrom(refs, i, h).value, refs)
    decreases |refs| - i
  {
    if i == |refs| {
      assert refs[..i] == refs;
    } else if UsableRef(refs[i]) {
      var h' := h[RefKey(refs[i]) := refs[i]];
      assert refs[..i + 1][..i] == refs[..i];
      forall k ensures (k in h' <==> LastRef(refs[..i + 1], k).Some?) && (k in h' ==> h'[k] == LastRef(refs[..i + 1], k).value) {
        assert LastRef(refs[..i + 1], k) == if RefKey(refs[i]) == k then Some(refs[i]) else LastRef(refs[..i], k);
      }
      BuildFromSpec(refs, i + 1, h');
    }
  }

  /** The table fails exactly on the first reference that is not a non-null
      object, naming its index; otherwise it maps each key to the LAST record
      stored under it (keyed by `id || _id`). */
  lemma RefHashSpec(refs: seq<Json>)
    ensures var j := FirstUnusable(refs, 0);
      if j < |refs| then RefHashOf(refs) == Err(RefFailure(refs, j))
      else RefHashOf(refs).Ok? && Agrees(RefHashOf(refs).value, refs)
  {
    assert refs[..0] == [];
    BuildFromSpec(refs, 0, map[]);
  }

  /** The table is built exactly when every reference is a non-null object. */
  lemma RefHashOkIff(refs: seq<Json>)
    ensures RefHashOf(refs).Ok? <==> forall i :: 0 <= i < |refs| ==> UsableRef(refs[i])
  {
    RefHashSpec(refs);
  }

  // ----- Looking up ids ----------------------------------------------------

  /** `_refhash[v]` when it is truthy. */
  function Resolve(hash: RefHash, v: Json): Option<Json> {
    var k := PropertyKey(v);
    if k in hash && Truthy(hash[k]) then Some(hash[k]) else None
  }

  /** A lookup in a built table finds the last record whose key is the id's
      string form, and fails exactly when no record has that key. */
  lemma ResolveInBuiltTable(refs: seq<Json>, v: Json)
    requires RefHashOf(refs).Ok?
    ensures Resolve(RefHashOf(refs).value, v) == LastRef(refs, PropertyKey(v))
  {
    RefHashSpec(refs);
    var k := PropertyKey(v);
    var l := LastRef(refs, k);
    if l.Some? {
      var j :| 0 <= j < |refs| && refs[j] == l.value;
      assert FirstUnusable(refs, 0) == |refs|;
      assert UsableRef(refs[j]);
    }
  }

  /** The in-place array loop from index `i`: each element is replaced by its
      record until the first id that does not resolve. */
  function ResolveIdsFrom(hash: RefHash, ids: seq<Json>, i: nat): (r: Effect<seq<Json>>)
    requires i <= |ids|
    ensures |r.after| == |ids|
    ensures r.failure.Some? ==> r.failure.value.Dangling?
    decreases |ids| - i
  {
    if i == |ids| then Effect(ids, None)
    else match Resolve(hash, ids[i])
      case None => Effect(ids, Some(Dangling(PropertyKey(ids[i]))))
      case Some(ref) => ResolveIdsFrom(hash, ids[i := ref], i + 1)
  }

  /** Index of the first id at or after `i` that does not resolve, or `|ids|`. */
  function FirstDangling(hash: RefHash, ids: seq<Json>, i: nat): (j: nat)
    requires i <= |ids|
    ensures i <= j <= |ids|
    ensures forall m :: i <= m < j ==> Resolve(hash, ids[m]).Some?
    ensures j < |ids| ==> Resolve(hash, ids[j]).None?
    decreases |ids| - i
  {
    if i == |ids| || Resolve(hash, ids[i]).None? then i else FirstDangling(hash, ids, i + 1)
  }

  /** The array `ids` after the loop has replaced the elements before index `j`. */
  ghost predicate ReplacedBefore(hash: RefHash, ids: seq<Json>, out: seq<Json>, j: nat)
    requires j <= |ids|
  {
    && |out| == |ids|
    && (forall m :: 0 <= m < j ==> Resolve(hash, ids[m]).Some? && out[m] == Resolve(hash, ids[m]).value)
    && (forall m :: j <= m < |ids| ==> out[m] == ids[m])
  }

  lemma {:induction false} ResolveIdsFromSpec(hash: RefHash, ids0: seq<Json>, ids: seq<Json>, i: nat)
    requires i <= |ids0| && ReplacedBefore(hash, ids0, ids, i)
    requires forall m :: i <= m < |ids0| ==> ids[m] == ids0[m]
    ensures var j := FirstDangling(hash, ids0, i);
      var r := ResolveIdsFrom(hash, ids, i);
      && ReplacedBefore(hash, ids0, r.after, j)
      && r.failure == (if j == |ids0| then None else Some(Dangling(PropertyKey(ids0[j]))))
    decreases |ids0| - i
  {
    if i < |ids0| && Resolve(hash, ids0[i]).Some? {
      var next := ids[i := Resolve(hash, ids0[i]).value];
      ResolveIdsFromSpec(hash, ids0, next, i + 1);
    }
  }

  /** An expanded array keeps its length and order: element `m` becomes
      `refhash[ids[m]]` for every `m` before the first dangling id, which is
      reported; the elements from there on are left as they were. */
  lemma ResolveIdsSpec(hash: RefHash, ids: seq<Json>)
    ensures var j := FirstDangling(hash, ids, 0);
      var r := ResolveIdsFrom(hash, ids, 0);
      && ReplacedBefore(hash, ids, r.after, j)
      && r.failure == (if j == |ids| then None else Some(Dangling(PropertyKey(ids[j]))))
  {
    ResolveIdsFromSpec(hash, ids, ids, 0);
  }

  // ----- The loops, in place -----------------------------------------------------

  /** The table-building loop of `_reparent`. */
  method BuildRefHash(refs: seq<Json>) returns (r: Result<RefHash, Failure>)
    ensures r == RefHashOf(refs)
  {
    var h: RefHash := map[];
    var i := 0;
    while i < |refs|
      invariant 0 <= i <= |refs|
      invariant BuildFrom(refs, i, h) == RefHashOf(refs)
    {
      if !IsObjectType(refs[i]) {
        return Err(RefNotObject(i));
      }
      if refs[i].Null? {
        return Err(NullRef(i));
      }
      h := h[RefKey(refs[i]) := refs[i]];
      i := i + 1;
    }
    return Ok(h);
  }

  /** The array branch of `_reparent_one`: each id of `ids` is overwritten in
      place by its record; the first dangling id stops the loop and leaves
      the array partly replaced. */
  method ResolveIds(hash: RefHash, ids: array<Json>) returns (failure: Option<Failure>)
    modifies ids
    ensures Effect(ids[..], failure) == ResolveIdsFrom(hash, old(ids[..]), 0)
  {
    var i := 0;
    while i < ids.Length
      invariant 0 <= i <= ids.Length
      invariant ResolveIdsFrom(hash, ids[..], i) == ResolveIdsFrom(hash, old(ids[..]), 0)
    {
      match Resolve(hash, ids[i])
      case None =>
        return Some(Dangling(PropertyKey(ids[i])));
      case Some(ref) =>
        assert ResolveIdsFrom(hash, ids[..], i) == ResolveIdsFrom(hash, ids[..][i := ref], i + 1);
        ids[i] := ref;
      i := i + 1;
    }
    assert ResolveIdsFrom(hash, ids[..], ids.Length) == Effect(ids[..], None);
    return None;
  }

  // ----- Expanding one field, one target, many targets ---------------------

  /** `_expand_fields[key]` is truthy. */
  predicate Enabled(expand: Json, key: string) {
    Truthy(Member(expand, key))
  }

  /** One field of the target at index `index`; the targets loop applies it
      only to targets of object type, so `null` is the one that throws. */
  function ReparentField(expand: Json, hash: RefHash, target: Json, index: nat, key: string): Effect<Json> {
    if !Enabled(expand, key) then Effect(target, None)
    else if target.Null? then Effect(target, Some(NullTarget(index)))
    else
      var value := Member(target, key);
      if !Truthy(value) then Effect(target, None)
      else if value.Arr? then
        var e := ResolveIdsFrom(hash, value.items, 0);
        Effect(Assign(target, key, Arr(e.after)), e.failure)
      else match Resolve(hash, value)
        case Some(ref) => Effect(Assign(target, key, ref), None)
        case None => Effect(target, Some(Dangling(PropertyKey(value))))
  }

  /** The fields `keys` of one target, in order, until the first failure. */
  function ReparentKeys(expand: Json, hash: RefHash, target: Json, index: nat, keys: seq<string>): Effect<Json>
    decreases |keys|
  {
    if |keys| == 0 then Effect(target, None)
    else
      var e := ReparentField(expand, hash, target, index, keys[0]);
      if e.failure.Some? then e else ReparentKeys(expand, hash, e.after, index, keys[1..])
  }

  /** The targets from index `i` on, until the first failure. */
  function ReparentFrom(expand: Json, hash: RefHash, targets: seq<Json>, keys: seq<string>, i: nat): (r: Effect<seq<Json>>)
    requires i <= |targets|
    ensures |r.after| == |targets|
    decreases |targets| - i
  {
    if i == |targets| then Effect(targets, None)
    else if !IsObjectType(targets[i]) then Effect(targets, Some(TargetNotObject(i)))
    else
      var e := ReparentKeys(expand, hash, targets[i], i, keys);
      if e.failure.Some? then Effect(targets[i := e.after], e.failure)
      else ReparentFrom(expand, hash, targets[i := e.after], keys, i + 1)
  }

  /** `_reparent(targets, refs, keys)`. */
  function Reparent(expand: Json, targets: seq<Json>, refs: seq<Json>, keys: seq<string>): (r: Effect<seq<Json>>)
    ensures |r.after| == |targets|
  {
    match RefHashOf(refs)
    case Err(f) => Effect(targets, Some(f))
    case Ok(hash) => ReparentFrom(expand, hash, targets, keys, 0)
  }

  /** `(v || [])` iterated by index: an array's elements, a string's
      characters (which are never objects), nothing for anything else. */
  function Elements(v: Json): seq<Json> {
    match v
    case Arr(items) => items
    case Str(s) => seq(|s|, j requires 0 <= j < |s| => Str([s[j]]))
    case _ => []
  }

  /** The payload with its `posts` array replaced, when it has one. */
  function WithPosts(o: Json, posts: seq<Json>): Json {
    if Member(o, "posts").Arr? then Assign(o, "posts", Arr(posts)) else o
  }

  /** `_reparent_all(o)`: `creator` from `users`, then `parent` and `root`
      from `postRefs`, then `links` from `urls`, all on `posts`; a failure
      stops the later passes. */
  function ReparentAll(expand: Json, o: Json): Effect<Json> {
    if o.Undefined? || o.Null? then Effect(o, Some(NoPayload))
    else
      var posts := Elements(Member(o, "posts"));
      var e1 := Reparent(expand, posts, Elements(Member(o, "users")), ["creator"]);
      var e2 := if e1.failure.Some? then e1 else Reparent(expand, e1.after, Elements(Member(o, "postRefs")), ["parent", "root"]);
      var e3 := if e2.failure.Some? then e2 else Reparent(expand, e2.after, Elements(Member(o, "urls")), ["links"]);
      Effect(WithPosts(o, e3.after), e3.failure)
  }

  // ----- Properties of expansion -------------------------------------------

  /** `b` has the shape of `a`: the same kind of value, an object keeping its
      set of fields, anything but an object left exactly as it was. */
  ghost predicate SameShape(a: Json, b: Json) {
    && a.Obj? == b.Obj?
    && (a.Obj? ==> a.fields.Keys == b.fields.Keys)
    && (!a.Obj? ==> a == b)
  }

  /** `key` is expanded by a pass over `keys`. */
  predicate Expands(expand: Json, keys: seq<string>, key: string) {
    key in keys && Enabled(expand, key)
  }

  /** One field: only `key` can change, and only when it is enabled; the
      target keeps its shape. */
  lemma FieldFrame(expand: Json, hash: RefHash, target: Json, index: nat, key: string)
    ensures var e := ReparentField(expand, hash, target, index, key);
      && SameShape(target, e.after)
      && (forall k :: k != key ==> Member(e.after, k) == Member(target, k))
      && (!Enabled(expand, key) ==> e == Effect(target, None))
  {
    var e := ReparentField(expand, hash, target, index, key);
    if Enabled(expand, key) && target.Obj? && Truthy(Member(target, key)) {
      assert key in target.fields;
      assert e.after.fields.Keys == target.fields.Keys;
    }
  }

  lemma {:induction false} KeysFrame(expand: Json, hash: RefHash, target: Json, index: nat, keys: seq<string>)
    ensures var e := ReparentKeys(expand, hash, target, index, keys);
      && SameShape(target, e.after)
      && (forall k :: !Expands(expand, keys, k) ==> Member(e.after, k) == Member(target, k))
    decreases |keys|
  {
    if |keys| > 0 {
      FieldFrame(expand, hash, target, index, keys[0]);
      var e := ReparentField(expand, hash, target, index, keys[0]);
      if e.failure.None? {
        KeysFrame(expand, hash, e.after, index, keys[1..]);
        forall k | !Expands(expand, keys, k)
          ensures (!Expands(expand, keys[1..], k) && k != keys[0]) || !Enabled(expand, keys[0])
        {
          if k in keys[1..] { assert k in keys; }
        }
      }
    }
  }

  lemma {:induction false} FromFrame(expand: Json, hash: RefHash, targets: seq<Json>, keys: seq<string>, i: nat)
    requires i <= |targets|
    ensures var r := ReparentFrom(expand, hash, targets, keys, i);
      && (forall j :: 0 <= j < |targets| ==> SameShape(targets[j], r.after[j]))
      && (forall j, k :: 0 <= j < |targets| && !Expands(expand, keys, k) ==> Member(r.after[j], k) == Member(targets[j], k))
      && (forall j :: 0 <= j < i ==> r.after[j] == targets[j])
    decreases |targets| - i
  {
    if i < |targets| && IsObjectType(targets[i]) {
      KeysFrame(expand, hash, targets[i], i, keys);
      var e := ReparentKeys(expand, hash, targets[i], i, keys);
      if e.failure.None? {
        FromFrame(expand, hash, targets[i := e.after], keys, i + 1);
      }
    }
  }

  /** A pass keeps the number and order of the targets, keeps each target's
      shape, and leaves every field it does not expand untouched. */
  lemma ReparentFrame(expand: Json, targets: seq<Json>, refs: seq<Json>, keys: seq<string>)
    ensures var r := Reparent(expand, targets, refs, keys);
      && |r.after| == |targets|
      && (forall j :: 0 <= j < |targets| ==> SameShape(targets[j], r.after[j]))
      && (forall j, k :: 0 <= j < |targets| && !Expands(expand, keys, k) ==> Member(r.after[j], k) == Member(targets[j], k))
  {
    if RefHashOf(refs).Ok? {
      FromFrame(expand, RefHashOf(refs).value, targets, keys, 0);
    }
  }

  /** With no field of `keys` enabled nothing changes, though a target that
      is not an object, or a bad reference, still fails. */
  lemma {:induction false} DisabledKeysChangeNothing(expand: Json, hash: RefHash, targets: seq<Json>, keys: seq<string>, i: nat)
    requires i <= |targets|
    requires forall k :: k in keys ==> !Enabled(expand, k)
    ensures ReparentFrom(expand, hash, targets, keys, i).after == targets
    decreases |targets| - i
  {
    if i < |targets| && IsObjectType(targets[i]) {
      DisabledKeysSkip(expand, hash, targets[i], i, keys);
      assert targets[i := targets[i]] == targets;
      DisabledKeysChangeNothing(expand, hash, targets, keys, i + 1);
    }
  }

  lemma {:induction false} DisabledKeysSkip(expand: Json, hash: RefHash, target: Json, index: nat, keys: seq<string>)
    requires forall k :: k in keys ==> !Enabled(expand, k)
    ensures ReparentKeys(expand, hash, target, index, keys) == Effect(target, None)
    decreases |keys|
  {
    if |keys| > 0 {
      assert keys[0] in keys;
      forall k | k in keys[1..] ensures !Enabled(expand, k) { assert k in keys; }
      DisabledKeysSkip(expand, hash, target, index, keys[1..]);
    }
  }

  /** A pass that succeeds met only targets of object type, and a
      non-object-target failure names a target in range that is not of
      object type (that it is the first failing target is `ReparentFromSpec`). */
  lemma {:induction false} TargetCheck(expand: Json, hash: RefHash, targets: seq<Json>, keys: seq<string>, i: nat)
    requires i <= |targets|
    ensures var r := ReparentFrom(expand, hash, targets, keys, i);
      r.failure.None? ==> forall j :: i <= j < |targets| ==> IsObjectType(targets[j])
    ensures var r := ReparentFrom(expand, hash, targets, keys, i);
      r.failure.Some? && r.failure.value.TargetNotObject? ==>
        var j := r.failure.value.targetIndex; i <= j < |targets| && !IsObjectType(targets[j])
    decreases |targets| - i
  {
    if i < |targets| && IsObjectType(targets[i]) {
      var e := ReparentKeys(expand, hash, targets[i], i, keys);
      KeysFailureKinds(expand, hash, targets[i], i, keys);
      if e.failure.None? {
        assert ReparentFrom(expand, hash, targets, keys, i) == ReparentFrom(expand, hash, targets[i := e.after], keys, i + 1);
        TargetCheck(expand, hash, targets[i := e.after], keys, i + 1);
        assert forall j :: i < j < |targets| ==> targets[i := e.after][j] == targets[j];
      }
    }
  }

  /** A failure inside one target is a null target or a dangling id. */
  lemma {:induction false} KeysFailureKinds(expand: Json, hash: RefHash, target: Json, index: nat, keys: seq<string>)
    ensures var f := ReparentKeys(expand, hash, target, index, keys).failure;
      f.Some? ==> f.value.Dangling? || f.value == NullTarget(index)
    decreases |keys|
  {
    if |keys| > 0 {
      var e := ReparentField(expand, hash, target, index, keys[0]);
      if e.failure.None? {
        KeysFailureKinds(expand, hash, e.after, index, keys[1..]);
      }
    }
  }

  /** An enabled field of an object target: a falsy value is left as it is;
      a single id becomes the record it names, or is reported dangling with
      the target unchanged; an array of ids is expanded element by element
      as `ResolveIdsSpec` states. */
  lemma EnabledFieldSpec(expand: Json, hash: RefHash, target: Json, index: nat, key: string)
    requires Enabled(expand, key) && target.Obj?
    ensures var value := Member(target, key);
      var e := ReparentField(expand, hash, target, index, key);
      if !Truthy(value) then e == Effect(target, None)
      else if value.Arr? then
        var j := FirstDangling(hash, value.items, 0);
        && Member(e.after, key).Arr?
        && ReplacedBefore(hash, value.items, Member(e.after, key).items, j)
        && e.failure == (if j == |value.items| then None else Some(Dangling(PropertyKey(value.items[j]))))
      else if Resolve(hash, value).Some? then
        e == Effect(Assign(target, key, Resolve(hash, value).value), None) && Member(e.after, key) == Resolve(hash, value).value
      else e == Effect(target, Some(Dangling(PropertyKey(value))))
  {
    if Truthy(Member(target, key)) && Member(target, key).Arr? {
      ResolveIdsSpec(hash, Member(target, key).items);
    }
  }

  /** A pass over the single key `key` expands that one field. */
  lemma OneKeyPass(expand: Json, hash: RefHash, target: Json, index: nat, key: string)
    ensures ReparentKeys(expand, hash, target, index, [key]) == ReparentField(expand, hash, target, index, key)
  {
    var e := ReparentField(expand, hash, target, index, key);
    assert [key][0] == key && [key][1..] == [];
    assert e.failure.None? ==> ReparentKeys(expand, hash, e.after, index, []) == Effect(e.after, None);
  }

  /** What the targets loop does to the single target at `index`: a target
      that is not of object type stops the pass, an object-type target has
      its fields expanded in order. */
  function TargetEffect(expand: Json, hash: RefHash, target: Json, index: nat, keys: seq<string>): Effect<Json> {
    if !IsObjectType(target) then Effect(target, Some(TargetNotObject(index)))
    else ReparentKeys(expand, hash, target, index, keys)
  }

  /** Index of the first target at or after `i` whose expansion fails, or `|targets|`. */
  function FirstFailingTarget(expand: Json, hash: RefHash, targets: seq<Json>, keys: seq<string>, i: nat): (m: nat)
    requires i <= |targets|
    ensures i <= m <= |targets|
    ensures forall j :: i <= j < m ==> TargetEffect(expand, hash, targets[j], j, keys).failure.None?
    ensures m < |targets| ==> TargetEffect(expand, hash, targets[m], m, keys).failure.Some?
    decreases |targets| - i
  {
    if i == |targets| || TargetEffect(expand, hash, targets[i], i, keys).failure.Some? then i
    else FirstFailingTarget(expand, hash, targets, keys, i + 1)
  }

  lemma {:induction false} ReparentFromSpec(expand: Json, hash: RefHash, targets0: seq<Json>, targets: seq<Json>, keys: seq<string>, i: nat)
    requires i <= |targets0| == |targets|
    requires forall j :: i <= j < |targets| ==> targets[j] == targets0[j]
    ensures var m := FirstFailingTarget(expand, hash, targets0, keys, i);
      var r := ReparentFrom(expand, hash, targets, keys, i);
      && (forall j :: 0 <= j < i ==> r.after[j] == targets[j])
      && (forall j :: i <= j < m ==> r.after[j] == TargetEffect(expand, hash, targets0[j], j, keys).after)
      && (forall j :: m < j < |targets| ==> r.after[j] == targets0[j])
      && (m < |targets| ==>
            r.after[m] == TargetEffect(expand, hash, targets0[m], m, keys).after &&
            r.failure == TargetEffect(expand, hash, targets0[m], m, keys).failure)
      && (m == |targets| ==> r.failure.None?)
    decreases |targets| - i
  {
    if i < |targets| {
      var e := TargetEffect(expand, hash, targets0[i], i, keys);
      if e.failure.None? {
        ReparentFromSpec(expand, hash, targets0, targets[i := e.after], keys, i + 1);
      }
    }
  }

  /** A pass expands every target in order until the first one that fails:
      targets before it become their expanded form, that one is left as far
      as it got and names the failure, the later ones are untouched. A bad
      reference fails before any target is touched, and a pass without
      failure expands every target, each of object type, without failure. */
  lemma ReparentSpec(expand: Json, targets: seq<Json>, refs: seq<Json>, keys: seq<string>)
    ensures RefHashOf(refs).Err? ==> Reparent(expand, targets, refs, keys) == Effect(targets, Some(RefHashOf(refs).error))
    ensures RefHashOf(refs).Ok? ==>
        var r := Reparent(expand, targets, refs, keys);
        var hash := RefHashOf(refs).value;
        var m := FirstFailingTarget(expand, hash, targets, keys, 0);
        && (forall j :: 0 <= j < m ==> r.after[j] == TargetEffect(expand, hash, targets[j], j, keys).after)
        && (forall j :: m < j < |targets| ==> r.after[j] == targets[j])
        && (m < |targets| ==>
              r.after[m] == TargetEffect(expand, hash, targets[m], m, keys).after &&
              r.failure == TargetEffect(expand, hash, targets[m], m, keys).failure)
        && (r.failure.None? <==> m == |targets|)
        && (r.failure.None? ==> forall j :: 0 <= j < |targets| ==>
              IsObjectType(targets[j]) && ReparentKeys(expand, hash, targets[j], j, keys) == Effect(r.after[j], None))
  {
    if RefHashOf(refs).Ok? {
      var hash := RefHashOf(refs).value;
      ReparentFromSpec(expand, hash, targets, targets, keys, 0);
    }
  }

  /** `_reparent_all` changes nothing but the `posts` of the payload, keeps
      their number, and stops at the first failing pass. */
  lemma ReparentAllFrame(expand: Json, o: Json)
    ensures var r := ReparentAll(expand, o);
      && (forall k :: k != "posts" ==> Member(r.after, k) == Member(o, k))
      && (Member(o, "posts").Arr? ==> Member(r.after, "posts").Arr? && |Member(r.after, "posts").items| == |Member(o, "posts").items|)
      && (!Member(o, "posts").Arr? ==> r.after == o)
  {
  }

  /** The fields `_reparent_all` may expand. */
  predicate Foreign(k: string) {
    k == "creator" || k == "parent" || k == "root" || k == "links"
  }

  /** Within the posts, `_reparent_all` changes only `creator`, `parent`,
      `root` and `links`: every post keeps its shape and all its other fields. */
  lemma ReparentAllPostFrame(expand: Json, o: Json)
    requires Member(o, "posts").Arr?
    ensures var before := Member(o, "posts").items;
      var after := Member(ReparentAll(expand, o).after, "posts").items;
      && |after| == |before|
      && (forall j :: 0 <= j < |before| ==> SameShape(before[j], after[j]))
      && (forall j, k :: 0 <= j < |before| && !Foreign(k) ==> Member(after[j], k) == Member(before[j], k))
  {
    var posts := Member(o, "posts").items;
    var e1 := Reparent(expand, posts, Elements(Member(o, "users")), ["creator"]);
    ReparentFrame(expand, posts, Elements(Member(o, "users")), ["creator"]);
    var e2 := if e1.failure.Some? then e1 else Reparent(expand, e1.after, Elements(Member(o, "postRefs")), ["parent", "root"]);
    ReparentFrame(expand, e1.after, Elements(Member(o, "postRefs")), ["parent", "root"]);
    var e3 := if e2.failure.Some? then e2 else Reparent(expand, e2.after, Elements(Member(o, "urls")), ["links"]);
    ReparentFrame(expand, e2.after, Elements(Member(o, "urls")), ["links"]);
    assert ReparentAll(expand, o).after == WithPosts(o, e3.after);
    assert Member(WithPosts(o, e3.after), "posts").items == e3.after;
    forall k | !Foreign(k)
      ensures !Expands(expand, ["creator"], k) && !Expands(expand, ["parent", "root"], k) && !Expands(expand, ["links"], k)
    {
    }
  }

  /** `_reparent_all` without failure: all three tables were built, and each
      post has had `creator` expanded from `users`, then `parent` and `root`
      from `postRefs`, then `links` from `urls`. */
  lemma ReparentAllSpec(expand: Json, o: Json)
    requires Member(o, "posts").Arr? && ReparentAll(expand, o).failure.None?
    ensures var users := RefHashOf(Elements(Member(o, "users")));
      var postRefs := RefHashOf(Elements(Member(o, "postRefs")));
      var urls := RefHashOf(Elements(Member(o, "urls")));
      var before := Member(o, "posts").items;
      var after := Member(ReparentAll(expand, o).after, "posts").items;
      && users.Ok? && postRefs.Ok? && urls.Ok?
      && |after| == |before|
      && forall j :: 0 <= j < |before| ==>
           var p1 := ReparentKeys(expand, users.value, before[j], j, ["creator"]).after;
           var p2 := ReparentKeys(expand, postRefs.value, p1, j, ["parent", "root"]).after;
           after[j] == ReparentKeys(expand, urls.value, p2, j, ["links"]).after
  {
    var posts := Member(o, "posts").items;
    var e1 := Reparent(expand, posts, Elements(Member(o, "users")), ["creator"]);
    var e2 := Reparent(expand, e1.after, Elements(Member(o, "postRefs")), ["parent", "root"]);
    var e3 := Reparent(expand, e2.after, Elements(Member(o, "urls")), ["links"]);
    assert e1.failure.None? && e2.failure.None? && e3.failure.None?;
    ReparentSpec(expand, posts, Elements(Member(o, "users")), ["creator"]);
    ReparentSpec(expand, e1.after, Elements(Member(o, "postRefs")), ["parent", "root"]);
    ReparentSpec(expand, e2.after, Elements(Member(o, "urls")), ["links"]);
    assert Member(ReparentAll(expand, o).after, "posts").items == e3.after;
  }

  // A post whose `creator` names a user by `_id`, with only `creator` enabled.
  const exampleExpand := Obj(map["creator" := Bool(true)])
  const examplePost := Obj(map["_id" := Num(1), "creator" := Str("u1"), "parent" := Null])
  const exampleUser := Obj(map["_id" := Str("u1"), "name" := Str("Alice")])

  lemma CreatorPass()
    ensures Reparent(exampleExpand, [examplePost], [exampleUser], ["creator"]) ==
      Effect([Assign(examplePost, "creator", exampleUser)], None)
    ensures Reparent(exampleExpand, [examplePost], [], ["creator"]) == Effect([examplePost], Some(Dangling("u1")))
  {
    var expand, post, alice := exampleExpand, examplePost, exampleUser;
    assert RefKey(alice) == "u1";
    var hash := map["u1" := alice];
    assert BuildFrom([alice], 1, hash) == Ok(hash);
    assert BuildFrom([alice], 0, map[]) == BuildFrom([alice], 1, map[][RefKey(alice) := alice]);
    assert map[][RefKey(alice) := alice] == hash;
    assert RefHashOf([alice]) == Ok(hash);
    assert Member(post, "creator") == Str("u1") && PropertyKey(Str("u1")) == "u1";
    assert Resolve(hash, Str("u1")) == Some(alice);
    var post' := Assign(post, "creator", alice);
    assert ReparentField(expand, hash, post, 0, "creator") == Effect(post', None);
    assert ReparentKeys(expand, hash, post', 0, []) == Effect(post', None);
    assert ReparentKeys(expand, hash, post, 0, ["creator"]) == Effect(post', None);
    assert ReparentFrom(expand, hash, [post'], ["creator"], 1) == Effect([post'], None);
    assert [post][0 := post'] == [post'];
    assert RefHashOf([]) == Ok(map[]);
    assert Resolve(map[], Str("u1")) == None;
    assert ReparentField(expand, map[], post, 0, "creator") == Effect(post, Some(Dangling("u1")));
    assert ReparentKeys(expand, map[], post, 0, ["creator"]) == Effect(post, Some(Dangling("u1")));
    assert [post][0 := post] == [post];
  }

  lemma DisabledPasses(post: Json)
    requires post.Obj?
    ensures Reparent(exampleExpand, [post], [], ["parent", "root"]) == Effect([post], None)
    ensures Reparent(exampleExpand, [post], [], ["links"]) == Effect([post], None)
  {
    var expand := exampleExpand;
    assert !Enabled(expand, "parent") && !Enabled(expand, "root") && !Enabled(expand, "links");
    DisabledKeysChangeNothing(expand, map[], [post], ["parent", "root"], 0);
    DisabledKeysChangeNothing(expand, map[], [post], ["links"], 0);
    TargetCheck(expand, map[], [post], ["parent", "root"], 0);
    TargetCheck(expand, map[], [post], ["links"], 0);
    KeysFailureKinds(expand, map[], post, 0, ["parent", "root"]);
    DisabledKeysSkip(expand, map[], post, 0, ["parent", "root"]);
    DisabledKeysSkip(expand, map[], post, 0, ["links"]);
    assert [post][0 := post] == [post];
    assert RefHashOf([]) == Ok(map[]);
  }

  /** With references keyed by `_id`, an enabled `creator` id is replaced
      by the user record it names; with no users it is a dangling reference. */
  lemma CreatorExample()
    ensures ReparentAll(exampleExpand, Obj(map["posts" := Arr([examplePost]), "users" := Arr([exampleUser])])) ==
      Effect(Obj(map["posts" := Arr([Assign(examplePost, "creator", exampleUser)]), "users" := Arr([exampleUser])]), None)
    ensures ReparentAll(exampleExpand, Obj(map["posts" := Arr([examplePost]), "users" := Arr([])])).failure == Some(Dangling("u1"))
  {
    CreatorPass();
    DisabledPasses(Assign(examplePost, "creator", exampleUser));
    var ok := Obj(map["posts" := Arr([examplePost]), "users" := Arr([exampleUser])]);
    var post' := Assign(examplePost, "creator", exampleUser);
    assert Elements(Member(ok, "posts")) == [examplePost] && Elements(Member(ok, "users")) == [exampleUser];
    assert Elements(Member(ok, "postRefs")) == [] && Elements(Member(ok, "urls")) == [];
    assert WithPosts(ok, [post']) == Obj(map["posts" := Arr([post']), "users" := Arr([exampleUser])]);
    var o := Obj(map["posts" := Arr([examplePost]), "users" := Arr([])]);
    assert Elements(Member(o, "posts")) == [examplePost] && Elements(Member(o, "users")) == [];
    var e1 := Reparent(exampleExpand, [examplePost], [], ["creator"]);
    assert e1.failure == Some(Dangling("u1"));
    assert ReparentAll(exampleExpand, o).failure == e1.failure;
  }
}
