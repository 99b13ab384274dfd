/**
 * Reading the audit log page by page. Ids stand for their place in the UUIDv7 order the query sorts by.
 */
module Audit {
  import opened Common

  type Id = int

  datatype AuditRow = AuditRow(
    resourceType: string, resourceId: Option<string>, principalId: Option<string>, action: string, requestId: string)

  type Log = map<Id, AuditRow>

  datatype Filter = Filter(
    resourceType: Option<string>, resourceId: Option<string>, principalId: Option<string>,
    action: Option<string>, requestId: Option<string>)

  const DEFAULT_LIMIT := 50
  const MAX_LIMIT := 200

  /** An absent or empty parameter filters nothing. */
  predicate Wants(asked: Option<string>, actual: Option<string>) {
    asked.Some? && asked.value != "" ==> actual == asked
  }

  predicate Matches(f: Filter, r: AuditRow) {
    && Wants(f.resourceType, Some(r.resourceType))
    && Wants(f.resourceId, r.resourceId)
    && Wants(f.principalId, r.principalId)
    && Wants(f.action, Some(r.action))
    && Wants(f.requestId, Some(r.requestId))
  }

  predicate Selected(log: Log, f: Filter, before: Option<Id>, id: Id) {
    id in log && Matches(f, log[id]) && (before.Some? ==> id < before.value)
  }

  /** An absent or empty parameter adds no condition to the query. */
  method RowMatches(f: Filter, r: AuditRow) returns (ok: bool)
    ensures ok <==> Matches(f, r)
  {
    if f.resourceType.Some? && f.resourceType.value != "" && r.resourceType != f.resourceType.value {
      return false;
    }
    if f.resourceId.Some? && f.resourceId.value != "" && r.resourceId != f.resourceId {
      return false;
    }
    if f.principalId.Some? && f.principalId.value != "" && r.principalId != f.principalId {
      return false;
    }
    if f.action.Some? && f.action.value != "" && r.action != f.action.value {
      return false;
    }
    if f.requestId.Some? && f.requestId.value != "" && r.requestId != f.requestId.value {
      return false;
    }
    return true;
  }

  method Query(log: Log, f: Filter, before: Option<Id>) returns (ids: set<Id>)
    ensures forall id :: id in ids <==> Selected(log, f, before, id)
  {
    ids := {};
    var rest := log.Keys;
    while rest != {}
      invariant rest <= log.Keys
      invariant forall id :: id in ids <==> Selected(log, f, before, id) && id !in rest
      decreases rest
    {
      ghost var some := AnElement(rest);
      assert some in rest;
      var id :| id in rest;
      var ok := RowMatches(f, log[id]);
      if ok && (before.None? || id < before.value) {
        ids := ids + {id};
      }
      rest := rest - {id};
    }
  }

  ghost function SelectedIds(log: Log, f: Filter, before: Option<Id>): set<Id> {
    set id | id in log && Selected(log, f, before, id)
  }

  ghost predicate Descending(ids: seq<Id>) {
    forall i, j :: 0 <= i < j < |ids| ==> ids[i] > ids[j]
  }

  /** `ORDER BY id DESC LIMIT limit`: nothing is skipped, and the page is short only when nothing is left. */
  ghost predicate IsPage(log: Log, f: Filter, before: Option<Id>, limit: nat, page: seq<Id>) {
    && |page| <= limit && Descending(page)
    && (forall id :: id in page ==> Selected(log, f, before, id))
    && (forall id :: Selected(log, f, before, id) && id !in page ==>
          |page| == limit && forall p :: p in page ==> id < p)
  }

  method ListAuditEvents(log: Log, f: Filter, before: Option<Id>, limit: nat) returns (page: seq<Id>)
    ensures IsPage(log, f, before, limit, page)
  {
    page := [];
    var rest := Query(log, f, before);
    while |page| < limit && rest != {}
      invariant |page| <= limit && Descending(page)
      invariant forall id :: id in page ==> Selected(log, f, before, id)
      invariant forall id :: id in rest <==> Selected(log, f, before, id) && id !in page
      invariant forall id, p :: id in rest && p in page ==> id < p
      decreases rest
    {
      ghost var some := AnElement(rest);
      HasMaximum(rest, some);
      var next :| next in rest && forall id :: id in rest ==> id <= next;
      assert forall p :: p in page ==> next < p;
      assert forall i :: 0 <= i < |page| ==> page[i] in page;
      page := page + [next];
      rest := rest - {next};
    }
  }

  /** `requested` is the parsed query parameter; `None` when absent or not a number. */
  function ParseLimit(requested: Option<int>): (limit: nat)
    ensures 1 <= limit <= MAX_LIMIT
    ensures requested.Some? && 1 <= requested.value <= 200 ==> limit == requested.value
    ensures requested.Some? && requested.value > 200 ==> limit == 200
    ensures requested.None? || requested.value < 1 ==> limit == 50
  {
    if requested.None? || requested.value <= 0 then DEFAULT_LIMIT
    else if requested.value < MAX_LIMIT then requested.value else MAX_LIMIT
  }

  function NextCursor(page: seq<Id>, limit: nat): Option<Id> {
    if |page| == limit && page != [] then Some(page[|page| - 1]) else None
  }

  method ListAudit(log: Log, f: Filter, before: Option<Id>, requested: Option<int>)
    returns (items: seq<Id>, nextCursor: Option<Id>)
    ensures IsPage(log, f, before, ParseLimit(requested), items)
    ensures nextCursor == NextCursor(items, ParseLimit(requested))
    ensures nextCursor.Some? <==> |items| == ParseLimit(requested)
    ensures nextCursor.Some? ==> nextCursor.value in items && forall id :: id in items ==> nextCursor.value <= id
    ensures nextCursor.None? ==> forall id :: Selected(log, f, before, id) ==> id in items
  {
    var limit := ParseLimit(requested);
    items := ListAuditEvents(log, f, before, limit);
    nextCursor := if |items| == limit && |items| > 0 then Some(items[|items| - 1]) else None;
  }

  // ── Following the cursor ───────────────────────────────────────────────────

  /** One request of a walk: the log as it then was, and what came back. */
  datatype Visit = Visit(log: Log, limit: nat, page: seq<Id>)

  /** Whatever happened between two requests, it left the rows below the cursor alone. */
  ghost predicate AgreeBelow(a: Log, b: Log, cursor: Id) {
    forall id :: id < cursor ==> (id in a <==> id in b) && (id in a ==> a[id] == b[id])
  }

  /** Each request asks below the previous one's cursor; limits may differ. */
  ghost predicate IsWalk(f: Filter, before: Option<Id>, visits: seq<Visit>)
    decreases |visits|
  {
    && visits != [] && visits[0].limit >= 1
    && IsPage(visits[0].log, f, before, visits[0].limit, visits[0].page)
    && (|visits| > 1 ==>
          var cursor := NextCursor(visits[0].page, visits[0].limit);
          cursor.Some? && AgreeBelow(visits[0].log, visits[1].log, cursor.value) && IsWalk(f, cursor, visits[1..]))
  }

  function LastCursor(visits: seq<Visit>): Option<Id>
    requires visits != []
  {
    NextCursor(visits[|visits| - 1].page, visits[|visits| - 1].limit)
  }

  function Listed(visits: seq<Visit>): seq<Id> {
    if visits == [] then [] else visits[0].page + Listed(visits[1..])
  }

  lemma SelectionBelow(a: Log, b: Log, f: Filter, before: Option<Id>, cursor: Id)
    requires AgreeBelow(a, b, cursor) && (before.Some? ==> cursor < before.value)
    ensures forall id :: Selected(b, f, Some(cursor), id) <==> Selected(a, f, before, id) && id < cursor
  {
  }

  /**
   * A finished walk lists every row that matched when it began, once, newest first, whatever limits
   * were asked for and whatever was inserted above the cursor meanwhile.
   */
  lemma {:induction false} WalkListsEverything(f: Filter, before: Option<Id>, visits: seq<Visit>)
    requires IsWalk(f, before, visits) && LastCursor(visits).None?
    ensures Descending(Listed(visits))
    ensures forall id :: id in Listed(visits) <==> Selected(visits[0].log, f, before, id)
    decreases |visits|
  {
    var page := visits[0].page;
    if |visits| == 1 {
      assert Listed(visits[1..]) == [];
      assert Listed(visits) == page;
    } else {
      var cursor := NextCursor(page, visits[0].limit).value;
      assert cursor in page;
      WalkListsEverything(f, Some(cursor), visits[1..]);
      SelectionBelow(visits[0].log, visits[1].log, f, before, cursor);
      PageThenBelow(page, Listed(visits[1..]), cursor);
      forall id ensures id in Listed(visits) <==> Selected(visits[0].log, f, before, id) {
        PageSplitsSelection(visits[0].log, f, before, visits[0].limit, page, id);
      }
    }
  }

  lemma PageThenBelow(page: seq<Id>, rest: seq<Id>, cursor: Id)
    requires page != [] && cursor == page[|page| - 1] && Descending(page) && Descending(rest)
    requires forall id :: id in rest ==> id < cursor
    ensures Descending(page + rest)
  {
    forall i, j | 0 <= i < j < |page + rest| ensures (page + rest)[i] > (page + rest)[j] {
      if i < |page| <= j {
        assert page[i] >= cursor;
        assert rest[j - |page|] in rest;
      }
    }
  }

  /** A full page holds exactly the selected rows from its cursor up. */
  lemma PageSplitsSelection(log: Log, f: Filter, before: Option<Id>, limit: nat, page: seq<Id>, id: Id)
    requires IsPage(log, f, before, limit, page) && page != [] && |page| == limit
    ensures id in page <==> Selected(log, f, before, id) && id >= page[|page| - 1]
  {
    assert page[|page| - 1] in page;
    if id in page {
      var i :| 0 <= i < |page| && page[i] == id;
    }
  }

  /** No walk goes on for ever: each full page uses up at least one row. */
  lemma {:induction false} WalkIsFinite(f: Filter, before: Option<Id>, visits: seq<Visit>)
    requires IsWalk(f, before, visits)
    ensures |visits| <= |SelectedIds(visits[0].log, f, before)| + 1
    decreases |visits|
  {
    if |visits| > 1 {
      var cursor := NextCursor(visits[0].page, visits[0].limit).value;
      assert cursor in visits[0].page;
      WalkIsFinite(f, Some(cursor), visits[1..]);
      SelectionBelow(visits[0].log, visits[1].log, f, before, cursor);
      var here, below := SelectedIds(visits[0].log, f, before), SelectedIds(visits[1].log, f, Some(cursor));
      assert cursor in here && cursor !in below && below <= here - {cursor};
      SubsetIsSmaller(below, here - {cursor});
    }
  }
}
