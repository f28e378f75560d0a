/** Keyset pagination of the incident list, newest update first, while other transactions keep writing. */
module Pagination {
  import opened Common
  import opened Incidents
  import Laws = IncidentLaws
  import Cursor

  type Table = map<nat, Incident>

  /** The sort key of a row: its last update, then its id. */
  datatype Key = Key(at: int, id: nat)

  predicate Below(a: Key, b: Key) {
    a.at < b.at || (a.at == b.at && a.id < b.id)
  }

  datatype Filter = Filter(device: Option<int>, status: Option<Status>, severity: Option<Severity>)

  predicate Passes(row: Incident, f: Filter) {
    && (f.device.Some? ==> row.device == f.device)
    && (f.status.Some? ==> row.status == f.status.value)
    && (f.severity.Some? ==> row.severity == f.severity.value)
  }

  predicate After(k: Key, cursor: Option<Key>) {
    cursor.Some? ==> Below(k, cursor.value)
  }

  /** The keys of the rows that the query's conditions select. */
  function Selected(t: Table, f: Filter, cursor: Option<Key>): set<Key> {
    set id | id in t && Passes(t[id], f) && After(Key(t[id].updatedAt, id), cursor) :: Key(t[id].updatedAt, id)
  }

  // ---------- the conditions of the query

  datatype Condition =
    | DeviceIs(device: int)
    | StatusIs(status: Status)
    | SeverityIs(severity: Severity)
    | KeyBelow(key: Key)

  predicate Holds(c: Condition, row: Incident, id: nat) {
    match c
    case DeviceIs(d) => row.device == Some(d)
    case StatusIs(s) => row.status == s
    case SeverityIs(s) => row.severity == s
    case KeyBelow(k) => Below(Key(row.updatedAt, id), k)
  }

  predicate AllHold(conds: seq<Condition>, row: Incident, id: nat) {
    forall i | 0 <= i < |conds| :: Holds(conds[i], row, id)
  }

  lemma AllHoldAppend(conds: seq<Condition>, c: Condition)
    ensures forall row, id :: AllHold(conds + [c], row, id) <==> AllHold(conds, row, id) && Holds(c, row, id)
  {
    forall row, id ensures AllHold(conds + [c], row, id) <==> AllHold(conds, row, id) && Holds(c, row, id) {
      var all := conds + [c];
      assert all[|conds|] == c && forall i | 0 <= i < |conds| :: all[i] == conds[i];
      if AllHold(all, row, id) {
        assert Holds(all[|conds|], row, id);
        forall i | 0 <= i < |conds| ensures Holds(conds[i], row, id) {
          assert Holds(all[i], row, id);
        }
      }
    }
  }

  /** The filter a request asks for; None when it names an unknown status or severity. */
  function FilterOf(device: Option<int>, status: string, severity: string): Option<Filter> {
    var known := KnownDevice(device);
    if (!Blank(status) && NormalizeStatus(status).None?) || (!Blank(severity) && NormalizeSeverity(severity).None?) then
      None
    else
      Some(Filter(known, if Blank(status) then None else NormalizeStatus(status),
                  if Blank(severity) then None else NormalizeSeverity(severity)))
  }

  /** What a filter lets through, in the words of the request: a blank word and a device below 1 ask for nothing. */
  lemma FilterMeans(device: Option<int>, status: string, severity: string)
    ensures FilterOf(device, status, severity).None? <==>
              || (!Blank(status) && NormalizeStatus(status).None?)
              || (!Blank(severity) && NormalizeSeverity(severity).None?)
    ensures FilterOf(device, status, severity).Some? ==>
              forall row :: Passes(row, FilterOf(device, status, severity).value) <==>
                && (device.Some? && device.value > 0 ==> row.device == device)
                && (Blank(status) || NormalizeStatus(status) == Some(row.status))
                && (Blank(severity) || NormalizeSeverity(severity) == Some(row.severity))
  {
    hide Blank, NormalizeStatus, NormalizeSeverity;
  }

  /** The list of conditions, built one by one, selects exactly the rows of the filter after the cursor. */
  method Conditions(device: Option<int>, status: string, severity: string, cursor: Option<Key>)
    returns (conds: Option<seq<Condition>>)
    ensures conds.None? <==> FilterOf(device, status, severity).None?
    ensures conds.Some? ==> forall row, id: nat :: AllHold(conds.value, row, id) <==>
              Passes(row, FilterOf(device, status, severity).value)
              && (cursor.Some? && cursor.value.id > 0 ==> After(Key(row.updatedAt, id), cursor))
    ensures conds.Some? ==> forall row, id: nat :: AllHold(conds.value, row, id) <==>
              && (device.Some? && device.value > 0 ==> row.device == device)
              && (Blank(status) || NormalizeStatus(status) == Some(row.status))
              && (Blank(severity) || NormalizeSeverity(severity) == Some(row.severity))
              && (cursor.Some? && cursor.value.id > 0 ==>
                    row.updatedAt < cursor.value.at || (row.updatedAt == cursor.value.at && id < cursor.value.id))
  {
    FilterMeans(device, status, severity);
    hide FilterOf, Passes, Blank, NormalizeStatus, NormalizeSeverity;
    var out: seq<Condition> := [];
    if device.Some? && device.value > 0 {
      AllHoldAppend(out, DeviceIs(device.value));
      out := out + [DeviceIs(device.value)];
    }
    if !Blank(status) {
      var s := NormalizeStatus(status);
      if s.None? {
        return None;
      }
      AllHoldAppend(out, StatusIs(s.value));
      out := out + [StatusIs(s.value)];
    }
    if !Blank(severity) {
      var s := NormalizeSeverity(severity);
      if s.None? {
        return None;
      }
      AllHoldAppend(out, SeverityIs(s.value));
      out := out + [SeverityIs(s.value)];
    }
    if cursor.Some? && cursor.value.id > 0 {
      AllHoldAppend(out, KeyBelow(cursor.value));
      out := out + [KeyBelow(cursor.value)];
    }
    return Some(out);
  }

  // ---------- ORDER BY updated_at DESC, id DESC

  predicate Descending(s: seq<Key>) {
    forall i, j | 0 <= i < j < |s| :: Below(s[j], s[i])
  }

  lemma {:induction false} TopExists(keys: set<Key>) returns (top: Key)
    requires keys != {}
    ensures top in keys && forall k | k in keys && k != top :: Below(k, top)
    decreases |keys|
  {
    var first :| first in keys;
    if keys == {first} {
      top := first;
    } else {
      var other := TopExists(keys - {first});
      top := if Below(first, other) then other else first;
      assert forall k | k in keys :: k == first || k == other || (k in keys - {first} && Below(k, other));
    }
  }

  ghost function Top(keys: set<Key>): (top: Key)
    requires keys != {}
    ensures top in keys && forall k | k in keys && k != top :: Below(k, top)
  {
    assert exists top :: top in keys && forall k | k in keys && k != top :: Below(k, top) by {
      var top := TopExists(keys);
    }
    var top :| top in keys && forall k | k in keys && k != top :: Below(k, top);
    top
  }

  ghost function Sorted(keys: set<Key>): (s: seq<Key>)
    ensures Descending(s) && |s| == |keys|
    ensures forall k :: k in s <==> k in keys
    decreases |keys|
  {
    if keys == {} then []
    else
      var top := Top(keys);
      var rest := Sorted(keys - {top});
      assert forall k | k in rest :: k in keys - {top};
      [top] + rest
  }

  /** A descending list is determined by its members. */
  lemma {:induction false} SortedIsUnique(a: seq<Key>, b: seq<Key>)
    requires Descending(a) && Descending(b)
    requires forall k :: k in a <==> k in b
    ensures a == b
    decreases |a|
  {
    HeadIn(a);
    HeadIn(b);
    if a != [] {
      HeadsAgree(a, b);
      assert forall k | k in a[1..] :: k in a && k != a[0];
      assert forall k | k in b[1..] :: k in b && k != b[0];
      forall k ensures k in a[1..] <==> k in b[1..] {
        assert k in a <==> k == a[0] || k in a[1..];
        assert k in b <==> k == b[0] || k in b[1..];
      }
      SortedIsUnique(a[1..], b[1..]);
    }
  }

  lemma HeadIn(s: seq<Key>)
    ensures s != [] ==> s[0] in s
  {
  }

  lemma PrefixOrRest(s: seq<Key>, m: nat, k: Key)
    requires m <= |s| && k in s
    ensures k in s[..m] || k in s[m..]
  {
    var i :| 0 <= i < |s| && s[i] == k;
    if i < m {
      assert s[..m][i] == k;
    } else {
      assert s[m..][i - m] == k;
    }
  }

  lemma HeadsAgree(a: seq<Key>, b: seq<Key>)
    requires Descending(a) && Descending(b) && a != [] && b != []
    requires a[0] in b && b[0] in a
    ensures a[0] == b[0]
  {
    var i :| 0 <= i < |b| && b[i] == a[0];
    var j :| 0 <= j < |a| && a[j] == b[0];
  }

  // ---------- one page

  datatype Page = Page(items: seq<Key>, more: bool)

  function Limit(limit: int): (n: nat)
    ensures 0 < n <= 5000
    ensures n == limit || (n == 200 && (limit <= 0 || limit > 5000))
  {
    if limit <= 0 || limit > 5000 then 200 else limit
  }

  /** The query asks for one row more than the page holds. */
  ghost function Query(t: Table, f: Filter, cursor: Option<Key>, n: nat): seq<Key> {
    var all := Sorted(Selected(t, f, cursor));
    if |all| > n + 1 then all[..n + 1] else all
  }

  ghost function PageOf(t: Table, f: Filter, cursor: Option<Key>, n: nat): (p: Page)
    ensures p.more ==> |p.items| == n
  {
    var rows := Query(t, f, cursor, n);
    if |rows| > n then Page(rows[..n], true) else Page(rows, false)
  }

  /** The position of the next cursor: the last row of a page that has a successor. */
  ghost function NextOf(t: Table, f: Filter, cursor: Option<Key>, n: nat): Option<Key>
    requires n > 0
  {
    var p := PageOf(t, f, cursor, n);
    if p.more then Some(p.items[n - 1]) else None
  }

  /** Reading the rows one by one and cutting the surplus one off. */
  method ListIncidentsPage(rows: seq<Key>, limit: int, ghost t: Table, ghost f: Filter, ghost cursor: Option<Key>)
    returns (page: Page)
    requires rows == Query(t, f, cursor, Limit(limit))
    ensures page == PageOf(t, f, cursor, Limit(limit))
    ensures page.more <==> |Selected(t, f, cursor)| > Limit(limit)
    ensures |page.items| <= Limit(limit)
  {
    var out := [];
    for i := 0 to |rows|
      invariant out == rows[..i]
    {
      out := out + [rows[i]];
    }
    if |out| > Limit(limit) {
      page := Page(out[..Limit(limit)], true);
    } else {
      page := Page(out, false);
    }
  }

  // ---------- following the cursor, one snapshot of the table per page

  ghost function Collect(ts: seq<Table>, f: Filter, cursor: Option<Key>, n: nat): seq<Key>
    requires n > 0
    decreases ts
  {
    if ts == [] then []
    else
      var next := NextOf(ts[0], f, cursor, n);
      PageOf(ts[0], f, cursor, n).items + if next.Some? then Collect(ts[1..], f, next, n) else []
  }

  /** The walk has come to a page without a next cursor. */
  ghost predicate Ended(ts: seq<Table>, f: Filter, cursor: Option<Key>, n: nat)
    requires n > 0
    decreases ts
  {
    ts != [] && (NextOf(ts[0], f, cursor, n).Some? ==> Ended(ts[1..], f, NextOf(ts[0], f, cursor, n), n))
  }

  /** `items` are the topmost of `keys` in descending order; `next`, the last of them, is there if some are left. */
  ghost predicate IsTop(keys: set<Key>, items: seq<Key>, next: Option<Key>) {
    && Descending(items)
    && (forall k | k in items :: k in keys)
    && (next.Some? ==> next.value in items && forall k | k in items :: !Below(k, next.value))
    && (forall k | k in keys && k !in items :: next.Some? && Below(k, next.value))
  }

  ghost predicate IsPage(t: Table, f: Filter, cursor: Option<Key>, items: seq<Key>, next: Option<Key>) {
    IsTop(Selected(t, f, cursor), items, next)
  }

  lemma PrefixIsTop(keys: set<Key>, all: seq<Key>, n: nat)
    requires Descending(all) && (forall k :: k in all <==> k in keys) && 0 < n < |all|
    ensures IsTop(keys, all[..n], Some(all[n - 1]))
  {
    var items, last := all[..n], all[n - 1];
    assert items[n - 1] == last;
    forall k | k in items ensures k in keys && !Below(k, last) {
      var i :| 0 <= i < n && items[i] == k;
      assert all[i] == k;
    }
    forall k | k in keys && k !in items ensures Below(k, last) {
      PrefixOrRest(all, n, k);
      var i :| 0 <= i < |all[n..]| && all[n..][i] == k;
      assert all[n + i] == k;
    }
    DescendingPrefix(all, n);
    hide Descending, Below;
  }

  lemma DescendingPrefix(all: seq<Key>, n: nat)
    requires Descending(all) && n <= |all|
    ensures Descending(all[..n])
  {
  }

  lemma WholeIsTop(keys: set<Key>, all: seq<Key>)
    requires Descending(all) && (forall k :: k in all <==> k in keys)
    ensures IsTop(keys, all, None)
  {
  }

  /** A page is the top of what is selected: descending, and everything left out comes after its last row. */
  lemma PageIsPage(t: Table, f: Filter, cursor: Option<Key>, n: nat)
    requires n > 0
    ensures IsPage(t, f, cursor, PageOf(t, f, cursor, n).items, NextOf(t, f, cursor, n))
  {
    var keys := Selected(t, f, cursor);
    var all := Sorted(keys);
    PageIsPrefix(t, f, cursor, n);
    hide PageOf, NextOf, Selected, IsTop, Sorted;
    if |all| > n {
      PrefixIsTop(keys, all, n);
    } else {
      WholeIsTop(keys, all);
    }
  }

  lemma PageIsPrefix(t: Table, f: Filter, cursor: Option<Key>, n: nat)
    requires n > 0
    ensures var all := Sorted(Selected(t, f, cursor));
            && PageOf(t, f, cursor, n).items == (if |all| > n then all[..n] else all)
            && NextOf(t, f, cursor, n) == (if |all| > n then Some(all[n - 1]) else None)
  {
    hide Sorted, Selected;
  }

  lemma SelectedKeys(t: Table, f: Filter, cursor: Option<Key>)
    ensures forall k | k in Selected(t, f, cursor) ::
              k.id in t && k.at == t[k.id].updatedAt && Passes(t[k.id], f) && After(k, cursor)
  {
  }

  lemma SelectedHas(t: Table, f: Filter, cursor: Option<Key>, id: nat)
    requires id in t && Passes(t[id], f) && After(Key(t[id].updatedAt, id), cursor)
    ensures Key(t[id].updatedAt, id) in Selected(t, f, cursor)
  {
  }

  lemma DescendingConcat(a: seq<Key>, b: seq<Key>)
    requires Descending(a) && Descending(b)
    requires forall k, m | k in b && m in a :: Below(k, m)
    ensures Descending(a + b)
  {
    forall i, j | 0 <= i < j < |a + b| ensures Below((a + b)[j], (a + b)[i]) {
      if i < |a| <= j {
        assert (a + b)[j] in b && (a + b)[i] in a;
      }
    }
  }

  /** Everything in the rest of a walk comes after everything on its first page. */
  lemma RestIsBelow(items: seq<Key>, last: Key, rest: seq<Key>)
    requires forall k | k in items :: !Below(k, last)
    requires forall k | k in rest :: Below(k, last)
    ensures forall k, m | k in rest && m in items :: Below(k, m)
  {
  }

  /** Whatever the writers do, the keys of a walk strictly descend below its cursor. */
  lemma {:induction false} WalkDescends(ts: seq<Table>, f: Filter, cursor: Option<Key>, n: nat)
    requires n > 0
    ensures Descending(Collect(ts, f, cursor, n))
    ensures forall k | k in Collect(ts, f, cursor, n) :: After(k, cursor)
    decreases ts
  {
    if ts != [] {
      var items, next := PageOf(ts[0], f, cursor, n).items, NextOf(ts[0], f, cursor, n);
      PageIsPage(ts[0], f, cursor, n);
      SelectedKeys(ts[0], f, cursor);
      hide PageOf, NextOf, Descending, Passes, Selected;
      if next.Some? {
        var rest := Collect(ts[1..], f, next, n);
        WalkDescends(ts[1..], f, next, n);
        RestIsBelow(items, next.value, rest);
        DescendingConcat(items, rest);
      } else {
        assert Collect(ts, f, cursor, n) == items;
      }
    }
  }

  /** Writers keep every row and never set `updated_at` back. */
  predicate Rises(t: Table, t': Table) {
    forall id | id in t :: id in t' && t[id].updatedAt <= t'[id].updatedAt
  }

  predicate Rising(ts: seq<Table>) {
    forall i, j | 0 <= i <= j < |ts| :: Rises(ts[i], ts[j])
  }

  lemma {:induction false} CollectedLater(t: Table, ts: seq<Table>, f: Filter, cursor: Option<Key>, n: nat, k: Key)
    requires n > 0 && (forall t' | t' in ts :: Rises(t, t'))
    requires k in Collect(ts, f, cursor, n)
    ensures k.id in t ==> t[k.id].updatedAt <= k.at
    decreases ts
  {
    var items, next := PageOf(ts[0], f, cursor, n).items, NextOf(ts[0], f, cursor, n);
    PageIsPage(ts[0], f, cursor, n);
    SelectedKeys(ts[0], f, cursor);
    assert ts[0] in ts && Rises(t, ts[0]);
    hide PageOf, NextOf, Selected, Descending;
    if k !in items {
      CollectedLater(t, ts[1..], f, next, n, k);
    }
  }

  predicate DistinctIds(s: seq<Key>) {
    forall i, j | 0 <= i < j < |s| :: s[i].id != s[j].id
  }

  lemma DistinctConcat(a: seq<Key>, b: seq<Key>)
    requires DistinctIds(a) && DistinctIds(b)
    requires forall k, m | k in a && m in b :: k.id != m.id
    ensures DistinctIds(a + b)
  {
    forall i, j | 0 <= i < j < |a + b| ensures (a + b)[i].id != (a + b)[j].id {
      if i < |a| <= j {
        assert (a + b)[j] in b && (a + b)[i] in a;
      }
    }
  }

  lemma PageIsDistinct(t: Table, f: Filter, cursor: Option<Key>, items: seq<Key>, next: Option<Key>)
    requires IsPage(t, f, cursor, items, next)
    ensures DistinctIds(items)
  {
    SelectedKeys(t, f, cursor);
    hide Selected;
    forall i, j | 0 <= i < j < |items| ensures items[i].id != items[j].id {
      assert items[i] in items && items[j] in items && Below(items[j], items[i]);
    }
  }

  lemma CollectUnfolds(ts: seq<Table>, f: Filter, cursor: Option<Key>, n: nat)
    requires n > 0 && ts != []
    ensures var items, next := PageOf(ts[0], f, cursor, n).items, NextOf(ts[0], f, cursor, n);
            Collect(ts, f, cursor, n) == items + if next.Some? then Collect(ts[1..], f, next, n) else []
  {
    hide PageOf, NextOf;
  }

  /** A page shares no incident with the rest of the walk: what comes later was not moved back in front of it. */
  lemma PageAndRestApart(ts: seq<Table>, f: Filter, cursor: Option<Key>, n: nat)
    requires n > 0 && ts != [] && Rising(ts) && NextOf(ts[0], f, cursor, n).Some?
    ensures var items, next := PageOf(ts[0], f, cursor, n).items, NextOf(ts[0], f, cursor, n);
            forall k, m | k in items && m in Collect(ts[1..], f, next, n) :: k.id != m.id
  {
    var items, next := PageOf(ts[0], f, cursor, n).items, NextOf(ts[0], f, cursor, n);
    var rest := Collect(ts[1..], f, next, n);
    assert forall t' | t' in ts[1..] :: Rises(ts[0], t');
    PageIsPage(ts[0], f, cursor, n);
    SelectedKeys(ts[0], f, cursor);
    WalkDescends(ts[1..], f, next, n);
    RestIsBelow(items, next.value, rest);
    hide Selected, PageOf, NextOf, Collect, Descending, Rises, Rising;
    forall k, m | k in items && m in rest ensures k.id != m.id {
      CollectedLater(ts[0], ts[1..], f, next, n, m);
      assert Below(m, k);
    }
  }

  lemma RisingTail(ts: seq<Table>)
    requires ts != [] && Rising(ts)
    ensures Rising(ts[1..])
  {
    hide Rises;
    forall i, j | 0 <= i <= j < |ts[1..]| ensures Rises(ts[1..][i], ts[1..][j]) {
      assert Rises(ts[i + 1], ts[j + 1]);
    }
  }

  /** No incident is returned twice. */
  lemma {:induction false} NoIdTwice(ts: seq<Table>, f: Filter, cursor: Option<Key>, n: nat)
    requires n > 0 && Rising(ts)
    ensures DistinctIds(Collect(ts, f, cursor, n))
    decreases ts
  {
    if ts != [] {
      PageIsPage(ts[0], f, cursor, n);
      CollectUnfolds(ts, f, cursor, n);
    }
    hide Selected, PageOf, NextOf, Collect, Descending, Rises, Rising, IsTop;
    if ts == [] {
      NothingCollected(f, cursor, n);
    } else {
      var items, next := PageOf(ts[0], f, cursor, n).items, NextOf(ts[0], f, cursor, n);
      PageIsDistinct(ts[0], f, cursor, items, next);
      assert items + [] == items;
      if next.Some? {
        PageAndRestApart(ts, f, cursor, n);
        RisingTail(ts);
        NoIdTwice(ts[1..], f, next, n);
        DistinctConcat(items, Collect(ts[1..], f, next, n));
      }
    }
  }

  lemma NothingCollected(f: Filter, cursor: Option<Key>, n: nat)
    requires n > 0
    ensures Collect([], f, cursor, n) == []
  {
  }

  /** An incident that passes the filter and is not written during a finished walk is returned. */
  lemma {:induction false} UnwrittenIsReturned(ts: seq<Table>, f: Filter, cursor: Option<Key>, n: nat, id: nat,
                                               row: Incident)
    requires n > 0 && Ended(ts, f, cursor, n)
    requires forall t | t in ts :: id in t && t[id] == row
    requires Passes(row, f) && After(Key(row.updatedAt, id), cursor)
    ensures Key(row.updatedAt, id) in Collect(ts, f, cursor, n)
    decreases ts
  {
    var k := Key(row.updatedAt, id);
    var items, next := PageOf(ts[0], f, cursor, n).items, NextOf(ts[0], f, cursor, n);
    PageIsPage(ts[0], f, cursor, n);
    assert ts[0] in ts && ts[0][id] == row;
    SelectedHas(ts[0], f, cursor, id);
    hide PageOf, NextOf, Selected, Descending, Passes;
    if k !in items {
      UnwrittenIsReturned(ts[1..], f, next, n, id, row);
    }
  }

  /** What a walk over a still table returns is selected. */
  lemma {:induction false} CollectedIsSelected(t: Table, m: nat, f: Filter, cursor: Option<Key>, n: nat, k: Key)
    requires n > 0 && k in Collect(Still(t, m), f, cursor, n)
    ensures k.id in t && k.at == t[k.id].updatedAt && Passes(t[k.id], f)
    decreases m
  {
    StillTail(t, m);
    var items, next := PageOf(t, f, cursor, n).items, NextOf(t, f, cursor, n);
    PageIsPage(t, f, cursor, n);
    SelectedKeys(t, f, cursor);
    hide PageOf, NextOf, Selected, Descending, Still;
    if k !in items {
      CollectedIsSelected(t, m - 1, f, next, n, k);
    }
  }

  /** The same table at `m` successive requests. */
  function Still(t: Table, m: nat): seq<Table> {
    seq(m, _ => t)
  }

  lemma StillTail(t: Table, m: nat)
    ensures m > 0 ==> Still(t, m) != [] && Still(t, m)[0] == t && Still(t, m)[1..] == Still(t, m - 1)
    ensures m == 0 ==> Still(t, m) == []
  {
  }

  /** On a still table the pages of a finished walk are the whole sorted list, cut up. */
  lemma StillTableGivesTheList(t: Table, m: nat, f: Filter, n: nat)
    requires n > 0 && Ended(Still(t, m), f, None, n)
    ensures Collect(Still(t, m), f, None, n) == Sorted(Selected(t, f, None))
  {
    var all := Collect(Still(t, m), f, None, n);
    WalkDescends(Still(t, m), f, None, n);
    SelectedKeys(t, f, None);
    forall k ensures k in all <==> k in Sorted(Selected(t, f, None)) {
      if k in all {
        CollectedIsSelected(t, m, f, None, n, k);
        SelectedHas(t, f, None, k.id);
      }
      if k in Selected(t, f, None) {
        UnwrittenIsReturned(Still(t, m), f, None, n, k.id, t[k.id]);
      }
    }
    SortedIsUnique(all, Sorted(Selected(t, f, None)));
  }

  // ---------- the walk ends

  /** Writers write at their current time: not before anything in `t`, and under new ids for new rows. */
  predicate Writes(t: Table, t': Table) {
    && Rises(t, t')
    && (forall id, old_ | id in t' && old_ in t && (id !in t || t[id].updatedAt != t'[id].updatedAt) ::
          t[old_].updatedAt <= t'[id].updatedAt)
    && (forall id, old_ | id in t' && id !in t && old_ in t :: old_ < id)
  }

  function Pending(t: Table, cursor: Option<Key>): set<nat> {
    set id | id in t && After(Key(t[id].updatedAt, id), cursor)
  }

  /** After more writes, what is ahead of a row was ahead before, and the row itself is not. */
  lemma PendingShrinks(t: Table, t': Table, cursor: Option<Key>, last: Key)
    requires Writes(t, t') && last.id in t && last.at == t[last.id].updatedAt && After(last, cursor)
    ensures last.id in Pending(t, cursor) && last.id !in Pending(t', Some(last))
    ensures Pending(t', Some(last)) <= Pending(t, cursor)
  {
    forall id | id in Pending(t', Some(last)) ensures id in Pending(t, cursor) {
      assert id in t' && Below(Key(t'[id].updatedAt, id), last);
      assert id in t ==> t[id].updatedAt == t'[id].updatedAt || last.at <= t'[id].updatedAt;
    }
  }

  /** A page with a successor leaves strictly fewer rows ahead, even after more writes. */
  lemma PageUsesUp(t: Table, t': Table, f: Filter, cursor: Option<Key>, n: nat)
    requires n > 0 && Writes(t, t') && NextOf(t, f, cursor, n).Some?
    ensures |Pending(t', NextOf(t, f, cursor, n))| < |Pending(t, cursor)|
  {
    var last := NextOf(t, f, cursor, n).value;
    PageIsPage(t, f, cursor, n);
    SelectedKeys(t, f, cursor);
    assert last in Selected(t, f, cursor);
    hide *;
    PendingShrinks(t, t', cursor, last);
    Smaller(Pending(t', Some(last)), Pending(t, cursor) - {last.id});
  }

  lemma {:induction false} Smaller(a: set<nat>, b: set<nat>)
    requires a <= b
    ensures |a| <= |b|
    decreases |a|
  {
    if a != {} {
      var x :| x in a;
      Smaller(a - {x}, b - {x});
    }
  }

  /** Writers cannot keep a reader going: after as many pages as there were rows ahead, plus one, it has ended. */
  lemma {:induction false} WalkEnds(ts: seq<Table>, f: Filter, cursor: Option<Key>, n: nat)
    requires n > 0 && (forall i | 0 < i < |ts| :: Writes(ts[i - 1], ts[i]))
    requires ts != [] && |Pending(ts[0], cursor)| < |ts|
    ensures Ended(ts, f, cursor, n)
    decreases ts
  {
    var next := NextOf(ts[0], f, cursor, n);
    PageIsPage(ts[0], f, cursor, n);
    SelectedKeys(ts[0], f, cursor);
    hide PageOf, NextOf, Selected, Descending;
    if next.Some? {
      assert next.value.id in Pending(ts[0], cursor);
      assert Writes(ts[1 - 1], ts[1]);
      PageUsesUp(ts[0], ts[1], f, cursor, n);
      forall i | 0 < i < |ts[1..]| ensures Writes(ts[1..][i - 1], ts[1..][i]) {
        assert Writes(ts[i + 1 - 1], ts[i + 1]);
      }
      WalkEnds(ts[1..], f, next, n);
    }
  }

  // ---------- the writers are the service's own transactions

  function TableOf(db: Db): Table {
    map id | id in db.cases :: db.cases[id].row
  }

  /** Any run of the incident engine is such a writer. */
  lemma RunWrites(owners: Owners, db: Db, events: seq<Laws.Event>, start: int)
    requires Laws.GoodDb(db, start) && Laws.InOrder(start, events)
    ensures Writes(TableOf(db), TableOf(Laws.Run(owners, db, events)))
  {
    Laws.RunKeeps(owners, db, events, start);
    RunWritesSince(owners, db, events, start);
  }

  lemma {:induction false} RunWritesSince(owners: Owners, db: Db, events: seq<Laws.Event>, start: int)
    requires Laws.GoodDb(db, start) && Laws.InOrder(start, events)
    ensures var db' := Laws.Run(owners, db, events);
            forall id | id in db'.cases ::
              || (id in db.cases && db'.cases[id] == db.cases[id])
              || start <= db'.cases[id].row.updatedAt
    decreases events
  {
    if events != [] {
      var e := events[0];
      Laws.GoodLater(db, start, e.now);
      Laws.ApplyKeeps(owners, db, e.op, e.now);
      var db1 := Laws.Apply(owners, db, e.op, e.now);
      RunWritesSince(owners, db1, events[1..], e.now);
      hide Laws.GoodDb, Laws.Apply, Laws.GoodCase, Laws.Later;
      assert Laws.Run(owners, db, events) == Laws.Run(owners, db1, events[1..]);
    }
  }

  // ---------- the handler: cursors as text

  datatype Request = Request(device: Option<int>, status: string, severity: string, limit: int)

  datatype Answer = BadCursor | BadQuery | Rows(items: seq<Key>, next: Option<string>)

  predicate Printable(t: Table) {
    forall id | id in t :: id > 0 && Cursor.IsInt64(id) && Cursor.IsInt64(t[id].updatedAt)
  }

  function Asked(r: Request): Option<Filter> {
    FilterOf(r.device, r.status, r.severity)
  }

  ghost function ListIncidents(t: Table, r: Request, cursor: string): Answer
    requires Printable(t)
  {
    var c := TrimSpace(cursor);
    var at := if c == "" then None else Cursor.DecodeCursor(c);
    if c != "" && at.None? then BadCursor
    else if at.Some? && at.value.id <= 0 then BadCursor
    else if Asked(r).None? then BadQuery
    else
      var n, f := Limit(r.limit), Asked(r).value;
      var position := if at.None? then None else Some(Key(at.value.at, at.value.id));
      var next := NextOf(t, f, position, n);
      PageIsPage(t, f, position, n);
      SelectedKeys(t, f, position);
      Rows(PageOf(t, f, position, n).items,
           if next.Some? then Some(Cursor.EncodeCursor(Cursor.Position(next.value.at, next.value.id))) else None)
  }

  /** A client that starts without a cursor and follows `next_cursor`, one snapshot per request. */
  ghost function Follow(ts: seq<Table>, r: Request, cursor: string): seq<Key>
    requires forall t | t in ts :: Printable(t)
    decreases ts
  {
    if ts == [] then []
    else
      assert ts[0] in ts;
      match ListIncidents(ts[0], r, cursor)
      case BadCursor => []
      case BadQuery => []
      case Rows(items, None) => items
      case Rows(items, Some(next)) => items + Follow(ts[1..], r, next)
  }

  function Text(cursor: Option<Key>): string
    requires cursor.Some? ==> cursor.value.id > 0
  {
    if cursor.None? then "" else Cursor.EncodeCursor(Cursor.Position(cursor.value.at, cursor.value.id))
  }

  predicate Decodable(cursor: Option<Key>) {
    cursor.Some? ==> cursor.value.id > 0 && Cursor.IsInt64(cursor.value.at) && Cursor.IsInt64(cursor.value.id)
  }

  lemma ListIsPage(t: Table, r: Request, f: Filter, cursor: Option<Key>)
    requires Printable(t) && Decodable(cursor) && Asked(r) == Some(f)
    ensures var next := NextOf(t, f, cursor, Limit(r.limit));
            && Decodable(next)
            && ListIncidents(t, r, Text(cursor))
            == Rows(PageOf(t, f, cursor, Limit(r.limit)).items, if next.Some? then Some(Text(next)) else None)
  {
    if cursor.Some? {
      Cursor.CursorRoundTrip(Cursor.Position(cursor.value.at, cursor.value.id));
      Cursor.EncodedIsTrim(Cursor.Position(cursor.value.at, cursor.value.id));
    }
    PageIsPage(t, f, cursor, Limit(r.limit));
    SelectedKeys(t, f, cursor);
    hide Selected, PageOf, NextOf, Cursor.EncodeCursor, Cursor.DecodeCursor, FilterOf;
  }

  /** The printed cursor stands for its position: the client's walk is the walk over keys. */
  lemma {:induction false} FollowIsCollect(ts: seq<Table>, r: Request, f: Filter, cursor: Option<Key>)
    requires (forall t | t in ts :: Printable(t)) && Decodable(cursor) && Asked(r) == Some(f)
    ensures Follow(ts, r, Text(cursor)) == Collect(ts, f, cursor, Limit(r.limit))
    decreases ts
  {
    if ts != [] {
      assert ts[0] in ts;
      var n := Limit(r.limit);
      var next := NextOf(ts[0], f, cursor, n);
      ListIsPage(ts[0], r, f, cursor);
      hide PageOf, NextOf, ListIncidents, Printable, Decodable, Text, Limit, Asked;
      if next.Some? {
        FollowIsCollect(ts[1..], r, f, next);
        assert Follow(ts, r, Text(cursor)) == PageOf(ts[0], f, cursor, n).items + Follow(ts[1..], r, Text(next));
      }
    }
  }

  // ---------- what a request is answered, in its own words

  /** The incident is one the request asks for. */
  predicate Requested(row: Incident, r: Request) {
    && (r.device.Some? && r.device.value > 0 ==> row.device == r.device)
    && (Blank(r.status) || NormalizeStatus(r.status) == Some(row.status))
    && (Blank(r.severity) || NormalizeSeverity(r.severity) == Some(row.severity))
  }

  /** The place that the text of a cursor names, if it names one; no text names the start. */
  function Place(cursor: string): Option<Cursor.Position> {
    Cursor.DecodeCursor(TrimSpace(cursor))
  }

  predicate Behind(row: Incident, id: nat, cursor: string) {
    TrimSpace(cursor) != "" && Place(cursor).Some? ==>
      var p := Place(cursor).value;
      row.updatedAt < p.at || (row.updatedAt == p.at && id < p.id)
  }

  function Start(cursor: string): Option<Key> {
    if TrimSpace(cursor) == "" || Place(cursor).None? then None
    else Some(Key(Place(cursor).value.at, Place(cursor).value.id))
  }

  /** The handler reads its page from where the cursor says. */
  lemma ListIs(t: Table, r: Request, cursor: string)
    requires Printable(t)
    ensures var answer, f := ListIncidents(t, r, cursor), Asked(r);
            && (answer == BadCursor <==> TrimSpace(cursor) != "" && Place(cursor).None?)
            && (answer == BadQuery ==> f.None?)
            && (answer.Rows? ==>
                  && f.Some?
                  && answer.items == PageOf(t, f.value, Start(cursor), Limit(r.limit)).items
                  && (answer.next.Some? <==> NextOf(t, f.value, Start(cursor), Limit(r.limit)).Some?))
  {
    hide FilterOf, PageOf, NextOf, Selected, TrimSpace, Cursor.DecodeCursor, Cursor.EncodeCursor;
  }

  /** The key of an incident that the request asks for, behind the cursor. */
  predicate Wanted(t: Table, r: Request, cursor: string, k: Key) {
    k.id in t && k.at == t[k.id].updatedAt && Requested(t[k.id], r) && Behind(t[k.id], k.id, cursor)
  }

  lemma SelectedIsWanted(t: Table, r: Request, cursor: string, k: Key)
    requires Asked(r).Some? && (TrimSpace(cursor) == "" || Place(cursor).Some?)
    ensures k in Selected(t, Asked(r).value, Start(cursor)) <==> Wanted(t, r, cursor, k)
  {
    FilterMeans(r.device, r.status, r.severity);
    hide FilterOf, Passes, Blank, NormalizeStatus, NormalizeSeverity, TrimSpace, Place;
  }

  /**
   One answer of the list: a bad cursor or an unknown word is refused. Otherwise every row returned is requested,
   behind the cursor and stands with its own time; the rows descend, are at most as many as the limit, and none that
   is requested and behind the cursor is left out in front of the next cursor.
   */
  lemma ListMeans(t: Table, r: Request, cursor: string)
    requires Printable(t)
    ensures var answer := ListIncidents(t, r, cursor);
            && (answer == BadCursor <==> TrimSpace(cursor) != "" && Place(cursor).None?)
            && (answer == BadQuery ==>
                  (!Blank(r.status) && NormalizeStatus(r.status).None?)
                  || (!Blank(r.severity) && NormalizeSeverity(r.severity).None?))
            && (answer.Rows? ==>
                  && (Blank(r.status) || NormalizeStatus(r.status).Some?)
                  && (Blank(r.severity) || NormalizeSeverity(r.severity).Some?)
                  && |answer.items| <= Limit(r.limit) && Descending(answer.items)
                  && (forall k | k in answer.items :: Wanted(t, r, cursor, k))
                  && (forall k | Wanted(t, r, cursor, k) && k !in answer.items ::
                        answer.next.Some? && answer.items != [] && Below(k, answer.items[|answer.items| - 1])))
  {
    FilterMeans(r.device, r.status, r.severity);
    ListIs(t, r, cursor);
    hide ListIncidents, FilterOf, PageOf, NextOf, Descending, Wanted, Start, Below, Place, Selected;
    hide Blank, NormalizeStatus, NormalizeSeverity, TrimSpace;
    if ListIncidents(t, r, cursor).Rows? {
      PageMeans(t, Asked(r).value, Start(cursor), Limit(r.limit));
      forall k {
        SelectedIsWanted(t, r, cursor, k);
      }
    }
  }

  lemma PageMeans(t: Table, f: Filter, cursor: Option<Key>, n: nat)
    requires n > 0
    ensures var items, next := PageOf(t, f, cursor, n).items, NextOf(t, f, cursor, n);
            && |items| <= n && Descending(items)
            && (forall k | k in items :: k in Selected(t, f, cursor))
            && (forall k | k in Selected(t, f, cursor) && k !in items ::
                  next.Some? && items != [] && Below(k, items[|items| - 1]))
  {
    var items, next := PageOf(t, f, cursor, n).items, NextOf(t, f, cursor, n);
    assert |items| <= n && (next.Some? ==> items != [] && next.value == items[|items| - 1]);
    hide PageOf, NextOf, Selected, Descending;
    PageIsPage(t, f, cursor, n);
  }

  // ---------- a reader beside a running service

  /** The snapshots a reader sees: one after each batch of transactions. */
  ghost function Snapshots(owners: Owners, db: Db, batches: seq<seq<Laws.Event>>): seq<Table>
    decreases batches
  {
    if batches == [] then []
    else
      var db1 := Laws.Run(owners, db, batches[0]);
      [TableOf(db1)] + Snapshots(owners, db1, batches[1..])
  }

  predicate BatchesInOrder(start: int, batches: seq<seq<Laws.Event>>)
    decreases batches
  {
    batches == [] ||
    (Laws.InOrder(start, batches[0]) && BatchesInOrder(Laws.EndOf(start, batches[0]), batches[1..]))
  }

  lemma RisesTrans(a: Table, b: Table, ts: seq<Table>)
    requires Rises(a, b) && forall t | t in ts :: Rises(b, t)
    ensures forall t | t in ts :: Rises(a, t)
  {
  }

  lemma RisingCons(t: Table, ts: seq<Table>)
    requires Rising(ts) && forall u | u in ts :: Rises(t, u)
    ensures Rising([t] + ts)
  {
    var all := [t] + ts;
    forall i, j | 0 <= i <= j < |all| ensures Rises(all[i], all[j]) {
      if i == 0 && j > 0 {
        assert all[j] in ts;
      } else if i > 0 {
        assert Rises(ts[i - 1], ts[j - 1]);
      }
    }
  }

  lemma WritesCons(t: Table, ts: seq<Table>)
    requires (forall i | 0 < i < |ts| :: Writes(ts[i - 1], ts[i])) && (ts != [] ==> Writes(t, ts[0]))
    ensures var all := [t] + ts; forall i | 0 < i < |all| :: Writes(all[i - 1], all[i])
  {
    var all := [t] + ts;
    hide Writes;
    forall i | 0 < i < |all| ensures Writes(all[i - 1], all[i]) {
      if i > 1 {
        assert Writes(ts[i - 1 - 1], ts[i - 1]);
      }
    }
  }

  /** The snapshots of a run only rise, and each is written from the one before. */
  lemma {:induction false} SnapshotsRise(owners: Owners, db: Db, batches: seq<seq<Laws.Event>>, start: int)
    requires Laws.GoodDb(db, start) && BatchesInOrder(start, batches)
    ensures var ts := Snapshots(owners, db, batches);
            && Rising(ts) && (forall t | t in ts :: Rises(TableOf(db), t))
            && (forall i | 0 < i < |ts| :: Writes(ts[i - 1], ts[i]))
            && (ts != [] ==> Writes(TableOf(db), ts[0]))
    decreases batches
  {
    if batches != [] {
      var db1 := Laws.Run(owners, db, batches[0]);
      var rest := Snapshots(owners, db1, batches[1..]);
      Laws.RunKeeps(owners, db, batches[0], start);
      RunWrites(owners, db, batches[0], start);
      assert Rises(TableOf(db), TableOf(db1));
      hide Laws.GoodDb, Laws.Run, Laws.InOrder, TableOf, Rises, Writes, Rising;
      SnapshotsRise(owners, db1, batches[1..], Laws.EndOf(start, batches[0]));
      RisesTrans(TableOf(db), TableOf(db1), rest);
      RisingCons(TableOf(db1), rest);
      WritesCons(TableOf(db1), rest);
    }
  }

  /** The incident is in every snapshot, the same in all. */
  predicate Unwritten(ts: seq<Table>, id: nat, row: Incident) {
    forall t | t in ts :: id in t && t[id] == row
  }

  lemma EverythingIsPending(t: Table)
    ensures |Pending(t, None)| == |t|
  {
    assert Pending(t, None) == t.Keys;
  }

  /**
   A client that follows `next_cursor` beside a running service, one snapshot per request: it is never given an
   incident twice, its walk ends within as many requests as there were incidents, plus one, and once it has ended it
   was given every matching incident that nobody wrote meanwhile.
   */
  lemma ReaderBesideTheService(owners: Owners, db: Db, batches: seq<seq<Laws.Event>>, start: int, r: Request, f: Filter)
    requires Laws.GoodDb(db, start) && BatchesInOrder(start, batches) && Asked(r) == Some(f)
    requires forall t | t in Snapshots(owners, db, batches) :: Printable(t)
    ensures var ts := Snapshots(owners, db, batches);
            var walk := Follow(ts, r, "");
            && DistinctIds(walk) && Descending(walk)
            && (ts != [] && |ts[0]| < |ts| ==> Ended(ts, f, None, Limit(r.limit)))
            && (Ended(ts, f, None, Limit(r.limit)) ==>
                  forall id, row | Unwritten(ts, id, row) && Requested(row, r) :: Key(row.updatedAt, id) in walk)
  {
    FilterMeans(r.device, r.status, r.severity);
    assert forall row :: Requested(row, r) <==> Passes(row, f);
    var ts := Snapshots(owners, db, batches);
    var n := Limit(r.limit);
    assert Text(None) == "" && Decodable(None);
    SnapshotsRise(owners, db, batches, start);
    hide Laws.GoodDb, BatchesInOrder, Snapshots, Follow, Collect, Ended, Rising, Writes, DistinctIds, Descending,
      Printable, Passes, Requested, FilterOf, Asked;
    FollowIsCollect(ts, r, f, None);
    NoIdTwice(ts, f, None, n);
    WalkDescends(ts, f, None, n);
    if ts != [] && |ts[0]| < |ts| {
      EverythingIsPending(ts[0]);
      WalkEnds(ts, f, None, n);
    }
    if Ended(ts, f, None, n) {
      forall id, row | Unwritten(ts, id, row) && Requested(row, r)
        ensures Key(row.updatedAt, id) in Collect(ts, f, None, n)
      {
        UnwrittenIsReturned(ts, f, None, n, id, row);
      }
    }
  }
}
