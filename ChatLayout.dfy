/** The thread-list and active-thread rules of frontend/src/pages/ChatLayout.jsx.
    A thread is a plain object (`Js.Obj`) as the backend sends it, with a
    numeric "id"; the route parameter `threadId` is a string, or `undefined`
    on the new-chat route. The requests themselves are parameters: a created
    thread or a fetched thread is `None` when its request failed. */
module ChatLayout {
  import opened Wrappers
  import opened Text
  import opened Js

  /** Whether a list entry is the updated thread: `t.id === updated.id`.
      Strict equality of two scalar values is value equality, and two
      missing ids are both `undefined`. */
  predicate SameId(t: Obj, updated: Obj) {
    Get(t, "id") == Get(updated, "id")
  }

  /** `onThreadUpdated`'s list update: every entry with the updated id is
      shallow-merged with the update, the update's fields winning; every
      other entry, the length and the order stay as they were. */
  function UpdateThreads(prev: seq<Obj>, updated: Obj): (r: seq<Obj>)
    ensures |r| == |prev|
    ensures forall i :: 0 <= i < |prev| && SameId(prev[i], updated) ==> r[i] == Spread(prev[i], updated)
    ensures forall i :: 0 <= i < |prev| && !SameId(prev[i], updated) ==> r[i] == prev[i]
  {
    if prev == [] then []
    else [if SameId(prev[0], updated) then Spread(prev[0], updated) else prev[0]] + UpdateThreads(prev[1..], updated)
  }

  /** A merged entry keeps the updated id, so it is matched again. */
  lemma MergeKeepsId(t: Obj, updated: Obj)
    requires SameId(t, updated)
    ensures SameId(Spread(t, updated), updated)
    ensures Spread(Spread(t, updated), updated) == Spread(t, updated)
  {
    if "id" !in updated {
      assert "id" !in t;
    }
  }

  /** Delivering the same update twice changes nothing the first delivery
      did not. */
  lemma UpdateThreadsIdempotent(prev: seq<Obj>, updated: Obj)
    ensures UpdateThreads(UpdateThreads(prev, updated), updated) == UpdateThreads(prev, updated)
  {
    var once := UpdateThreads(prev, updated);
    var twice := UpdateThreads(once, updated);
    forall i | 0 <= i < |prev|
      ensures twice[i] == once[i]
    {
      if SameId(prev[i], updated) {
        MergeKeepsId(prev[i], updated);
      }
    }
  }

  /** An update whose id matches no entry leaves the list as it was. */
  lemma UpdateThreadsNoMatch(prev: seq<Obj>, updated: Obj)
    requires forall i :: 0 <= i < |prev| ==> !SameId(prev[i], updated)
    ensures UpdateThreads(prev, updated) == prev
  {
  }

  /** `newChat`: a created thread is put in front of the list and the
      browser navigates to `/<id>`; a failed request changes nothing. */
  function NewChat(prev: seq<Obj>, created: Option<Obj>): (r: (seq<Obj>, Option<string>))
    ensures created.None? ==> r == (prev, None)
    ensures created.Some? ==> |r.0| == |prev| + 1 && r.0[0] == created.value && r.0[1..] == prev
    ensures created.Some? ==> r.1 == Some("/" + ToText(Get(created.value, "id")))
  {
    if created.Some? then ([created.value] + prev, Some("/" + ToText(Get(created.value, "id"))))
    else (prev, None)
  }

  /** What the route effect does with the active thread's metadata. */
  datatype MetaEffect = ClearMeta | SetMeta(meta: Obj) | Redirect(path: string)

  /** The effect run when `threadId` changes: without a (non-empty) route
      parameter the metadata becomes `null`; otherwise the thread is fetched,
      and a failed fetch redirects to "/newchat". */
  function OnRoute(threadId: Option<string>, fetched: Option<Obj>): (r: MetaEffect)
    ensures r == ClearMeta <==> threadId.None? || threadId == Some("")
    ensures r.SetMeta? <==> threadId.Some? && threadId.value != "" && fetched.Some?
    ensures r.SetMeta? ==> r.meta == fetched.value
    ensures r.Redirect? ==> r.path == "/newchat" && fetched.None?
  {
    if !Truthy(ParamValue(threadId)) then ClearMeta
    else if fetched.Some? then SetMeta(fetched.value)
    else Redirect("/newchat")
  }

  /** `{ ...(m || {}), ...updated }` for the active metadata `m` (`None` is
      `null`). */
  function MergeMeta(meta: Option<Obj>, updated: Obj): (r: Obj)
    ensures r.Keys == updated.Keys + (if meta.Some? then meta.value.Keys else {})
    ensures forall k :: k in updated ==> r[k] == updated[k]
    ensures meta.Some? ==> forall k :: k in meta.value && k !in updated ==> r[k] == meta.value[k]
  {
    Spread(if meta.Some? then meta.value else map[], updated)
  }

  /** `onThreadUpdated`'s metadata update as written: merged only when
      `threadId === updated.id`, a string compared strictly with a
      number. */
  function MetaAfterUpdateAsWritten(threadId: Option<string>, meta: Option<Obj>, updated: Obj): (r: Option<Obj>)
    ensures ParamValue(threadId) == Get(updated, "id") ==> r == Some(MergeMeta(meta, updated))
    ensures ParamValue(threadId) != Get(updated, "id") ==> r == meta
  {
    if ParamValue(threadId) == Get(updated, "id") then Some(MergeMeta(meta, updated)) else meta
  }

  /** With a numeric id, as the backend sends it, the metadata is never
      merged, even when the route shows that very thread. */
  lemma AsWrittenIgnoresNumericId(threadId: Option<string>, meta: Option<Obj>, updated: Obj, n: int)
    requires Get(updated, "id") == Some(JNum(n))
    ensures MetaAfterUpdateAsWritten(threadId, meta, updated) == meta
  {
  }

  /** The route of thread 7 and an update of thread 7 that closes it: the
      active metadata keeps the old status. */
  lemma AsWrittenMissesCurrentThread()
    ensures var meta := Some(map["id" := JNum(7), "status" := JStr("open")]);
            var updated := map["id" := JNum(7), "status" := JStr("closed")];
            MetaAfterUpdateAsWritten(Some("7"), meta, updated) == meta &&
            meta.value["status"] != updated["status"]
  {
    var meta := Some(map["id" := JNum(7), "status" := JStr("open")]);
    var updated := map["id" := JNum(7), "status" := JStr("closed")];
    AsWrittenIgnoresNumericId(Some("7"), meta, updated, 7);
  }

  /** Whether the route parameter names the thread with this id: the id as
      it appears in the route `/<id>`. */
  predicate RouteNames(threadId: Option<string>, id: Option<Json>) {
    threadId.Some? && id.Some? && threadId.value == ToText(id)
  }

  /** The corrected metadata update: merged exactly when the route names the
      updated thread. */
  function MetaAfterUpdate(threadId: Option<string>, meta: Option<Obj>, updated: Obj): (r: Option<Obj>)
    ensures RouteNames(threadId, Get(updated, "id")) ==> r == Some(MergeMeta(meta, updated))
    ensures !RouteNames(threadId, Get(updated, "id")) ==> r == meta
  {
    if RouteNames(threadId, Get(updated, "id")) then Some(MergeMeta(meta, updated)) else meta
  }

  /** A route names exactly one numeric id: the update of thread `n` is
      merged on route `/<n>` and on no other route. */
  lemma RouteNamesOneNumber(threadId: Option<string>, m: int, n: int)
    ensures RouteNames(Some(IntToString(n)), Some(JNum(n)))
    ensures RouteNames(threadId, Some(JNum(m))) && RouteNames(threadId, Some(JNum(n))) ==> m == n
  {
    IntToStringInjective(m, n);
  }

  /** The route `newChat` navigates to names the created thread under the
      corrected comparison (its parameter is the path after "/"). */
  lemma NewChatRouteNamesCreated(prev: seq<Obj>, created: Obj)
    requires Get(created, "id").Some?
    ensures var path := NewChat(prev, Some(created)).1.value;
            |path| >= 1 && RouteNames(Some(path[1..]), Get(created, "id"))
  {
    var path := NewChat(prev, Some(created)).1.value;
    assert path[1..] == ToText(Get(created, "id"));
  }
}
