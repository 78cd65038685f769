/** The thread list of frontend/src/ui/Sidebar.jsx: the open/closed
    partition, the empty placeholders, each item's subtitle and its active
    flag. Date formatting is not part of this model: a subtitle carries the
    raw timestamp it would format. */
module Sidebar {
  import opened Wrappers
  import opened Text
  import opened Js
  import opened ChatLayout

  /** `t.status === status`. */
  predicate HasStatus(t: Obj, status: string) {
    Get(t, "status") == Some(JStr(status))
  }

  /** `threads.filter(t => t.status === status)`. */
  function WithStatus(threads: seq<Obj>, status: string): (r: seq<Obj>)
    ensures |r| <= |threads|
    ensures forall i :: 0 <= i < |r| ==> HasStatus(r[i], status)
  {
    if threads == [] then []
    else (if HasStatus(threads[0], status) then [threads[0]] else []) + WithStatus(threads[1..], status)
  }

  /** The filter distributes over concatenation, so it keeps the original
      order. */
  lemma {:induction false} WithStatusAppend(a: seq<Obj>, b: seq<Obj>, status: string)
    ensures WithStatus(a + b, status) == WithStatus(a, status) + WithStatus(b, status)
  {
    if a == [] {
      assert a + b == b;
    } else {
      assert (a + b)[1..] == a[1..] + b;
      WithStatusAppend(a[1..], b, status);
    }
  }

  /** A thread is in the filtered list exactly when it is in the list and has
      that status. */
  lemma {:induction false} WithStatusMembers(threads: seq<Obj>, status: string, t: Obj)
    ensures t in WithStatus(threads, status) <==> t in threads && HasStatus(t, status)
  {
    if threads != [] {
      WithStatusMembers(threads[1..], status, t);
      assert threads == [threads[0]] + threads[1..];
    }
  }

  /** The "Active Sessions" and "Closed Sessions" lists never share a
      thread, and a thread whose status is neither is in neither. */
  lemma OpenClosedPartition(threads: seq<Obj>, t: Obj)
    ensures !(t in WithStatus(threads, "open") && t in WithStatus(threads, "closed"))
    ensures t in threads && !HasStatus(t, "open") && !HasStatus(t, "closed") ==>
              t !in WithStatus(threads, "open") && t !in WithStatus(threads, "closed")
    ensures t in threads && (HasStatus(t, "open") || HasStatus(t, "closed")) ==>
              t in WithStatus(threads, "open") || t in WithStatus(threads, "closed")
  {
    WithStatusMembers(threads, "open", t);
    WithStatusMembers(threads, "closed", t);
    assert "open" != "closed";
  }

  /** When every thread is open or closed, the two lists together hold them
      all. */
  lemma {:induction false} PartitionCount(threads: seq<Obj>)
    requires forall i :: 0 <= i < |threads| ==> HasStatus(threads[i], "open") || HasStatus(threads[i], "closed")
    ensures |WithStatus(threads, "open")| + |WithStatus(threads, "closed")| == |threads|
  {
    if threads != [] {
      assert "open" != "closed";
      PartitionCount(threads[1..]);
    }
  }

  /** The placeholder ("No active sessions" / "No closed sessions") is shown
      exactly when no thread has that status. */
  function ShowsPlaceholder(threads: seq<Obj>, status: string): (shown: bool)
    ensures shown <==> forall i :: 0 <= i < |threads| ==> !HasStatus(threads[i], status)
  {
    EmptyIffNone(threads, status);
    |WithStatus(threads, status)| == 0
  }

  lemma {:induction false} EmptyIffNone(threads: seq<Obj>, status: string)
    ensures WithStatus(threads, status) == [] <==> forall i :: 0 <= i < |threads| ==> !HasStatus(threads[i], status)
  {
    if threads != [] {
      EmptyIffNone(threads[1..], status);
      if HasStatus(threads[0], status) {
        assert WithStatus(threads, status)[0] == threads[0];
      } else {
        assert forall i :: 1 <= i < |threads| ==> threads[i] == threads[1..][i - 1];
      }
    }
  }

  /** An item's subtitle: when it closed, or when it was last updated. */
  datatype Subtitle = ClosedAt(endedAt: Json) | UpdatedAt(updatedAt: Option<Json>)

  /** "Closed …" only for an item of the closed list with a truthy
      `ended_at`; "Updated …" otherwise. */
  function SubtitleOf(t: Obj, closed: bool): (r: Subtitle)
    ensures r.ClosedAt? <==> closed && Truthy(Get(t, "ended_at"))
    ensures r.ClosedAt? ==> Some(r.endedAt) == Get(t, "ended_at")
    ensures r.UpdatedAt? ==> r.updatedAt == Get(t, "updated_at")
  {
    if closed && Truthy(Get(t, "ended_at")) then ClosedAt(Get(t, "ended_at").value) else UpdatedAt(Get(t, "updated_at"))
  }

  /** Items of the "Active Sessions" list always say "Updated …". */
  lemma OpenItemsShowUpdated(threads: seq<Obj>, i: nat)
    requires i < |WithStatus(threads, "open")|
    ensures SubtitleOf(WithStatus(threads, "open")[i], false).UpdatedAt?
  {
  }

  /** The active flag as written: `activeId === t.id`, the route parameter
      (a string) compared strictly with the thread's id. */
  predicate IsActiveAsWritten(activeId: Option<string>, t: Obj) {
    ParamValue(activeId) == Get(t, "id")
  }

  /** With numeric ids no item is ever highlighted, not even the one the
      route shows. */
  lemma AsWrittenNeverActive(activeId: Option<string>, threads: seq<Obj>)
    requires forall i :: 0 <= i < |threads| ==> Get(threads[i], "id").Some? && Get(threads[i], "id").value.JNum?
    ensures forall i :: 0 <= i < |threads| ==> !IsActiveAsWritten(activeId, threads[i])
  {
  }

  /** The route "/7" and thread 7 in the list: the item is not
      highlighted. */
  lemma AsWrittenMissesRouteThread()
    ensures !IsActiveAsWritten(Some("7"), map["id" := JNum(7)])
  {
  }

  /** The corrected active flag: the route parameter names the thread. */
  predicate IsActive(activeId: Option<string>, t: Obj) {
    RouteNames(activeId, Get(t, "id"))
  }

  /** With distinct numeric ids, at most one item is active, and the item
      with id `n` is active on the route `/<n>`. */
  lemma AtMostOneActive(activeId: Option<string>, threads: seq<Obj>, i: nat, j: nat)
    requires forall k :: 0 <= k < |threads| ==> Get(threads[k], "id").Some? && Get(threads[k], "id").value.JNum?
    requires forall k, l :: 0 <= k < l < |threads| ==> Get(threads[k], "id") != Get(threads[l], "id")
    requires i < |threads| && j < |threads|
    ensures IsActive(activeId, threads[i]) && IsActive(activeId, threads[j]) ==> i == j
    ensures IsActive(Some(IntToString(Get(threads[i], "id").value.n)), threads[i])
  {
    var m := Get(threads[i], "id").value.n;
    var n := Get(threads[j], "id").value.n;
    RouteNamesOneNumber(activeId, m, n);
  }
}
