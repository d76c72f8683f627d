/**
 * Group synchronisation: the filter over the listed groups with its
 * create-or-update calls, and the loop that walks article numbers from the
 * stored cursor to the group's last number, persisting the cursor after each.
 * The repository is reduced to the group rows it keeps.
 */
module Groups {
  import opened Wrappers
  import opened Strings
  import Nntp

  const PREFIX := "omnitel."
  const EXCLUDED := "omnitel.binaries"

  /** A stored group: the sync cursor and the bounds last listed; a new group has cursor 0 and no bounds. */
  datatype GroupRow = GroupRow(numLastSynced: int, first: Option<int>, last: Option<int>)

  /** A listed group the worker follows. */
  predicate Wanted(name: string)
  {
    StartsWith(name, PREFIX) && name != EXCLUDED
  }

  /** The wanted groups of a listing, in listing order. */
  function WantedGroups(listed: seq<Nntp.GroupListing>): (r: seq<Nntp.GroupListing>)
    ensures |r| <= |listed|
    ensures forall g :: g in r <==> g in listed && Wanted(g.group)
  {
    if |listed| == 0 then []
    else
      var g := listed[|listed| - 1];
      InitLast(listed);
      WantedGroups(listed[..|listed| - 1]) + (if Wanted(g.group) then [g] else [])
  }

  /** The rows after the create-or-update call for each wanted group; `known` is the set of names read first. */
  function Registered(rows: map<string, GroupRow>, known: set<string>, listed: seq<Nntp.GroupListing>): (r: map<string, GroupRow>)
    ensures rows.Keys <= r.Keys
  {
    if |listed| == 0 then rows
    else
      var m := Registered(rows, known, listed[..|listed| - 1]);
      var g := listed[|listed| - 1];
      if !Wanted(g.group) then m
      else if g.group !in known then m[g.group := GroupRow(0, None, None)]
      else if g.group in m then m[g.group := m[g.group].(first := g.first, last := g.last)]
      else m
  }

  /** The first listed group with this name. */
  function Find(listed: seq<Nntp.GroupListing>, name: string): (r: Option<Nntp.GroupListing>)
    ensures r.None? <==> forall g :: g in listed ==> g.group != name
    ensures r.Some? ==> r.value in listed && r.value.group == name
    ensures r.Some? ==>
      exists i :: 0 <= i < |listed| && listed[i] == r.value && forall j :: 0 <= j < i ==> listed[j].group != name
  {
    if |listed| == 0 then None
    else if listed[0].group == name then Some(listed[0])
    else
      assert forall g :: g in listed <==> g == listed[0] || g in listed[1..];
      Find(listed[1..], name)
  }

  /** The rows with the cursor of `name` set to `n`; an unknown group is left alone. */
  function SetCursor(rows: map<string, GroupRow>, name: string, n: int): map<string, GroupRow>
  {
    if name in rows then rows[name := rows[name].(numLastSynced := n)] else rows
  }

  /** The article numbers `lo`, `lo + 1`, ..., `hi - 1`. */
  function Range(lo: int, hi: int): (r: seq<int>)
    requires lo <= hi
    ensures |r| == hi - lo && forall i :: 0 <= i < |r| ==> r[i] == lo + i
  {
    seq(hi - lo, i requires 0 <= i < hi - lo => lo + i)
  }

  /** The first number in `lo..hi` whose processing fails. */
  function FirstFailure(process: (string, int) -> bool, name: string, lo: int, hi: int): (r: Option<int>)
    ensures r.None? <==> forall n :: lo <= n <= hi ==> process(name, n)
    ensures r.Some? ==>
      && lo <= r.value <= hi && !process(name, r.value)
      && forall n :: lo <= n < r.value ==> process(name, n)
    decreases hi - lo + 1
  {
    if lo > hi then None
    else if !process(name, lo) then Some(lo)
    else FirstFailure(process, name, lo + 1, hi)
  }

  class GroupStore {
    var rows: map<string, GroupRow>

    constructor(initial: map<string, GroupRow>)
      ensures rows == initial
    {
      rows := initial;
    }

    /** `getGroupLastSynced`: 0 for a group the repository does not know. */
    function LastSynced(name: string): (n: int)
      reads this
      ensures name !in rows ==> n == 0
      ensures name in rows ==> n == rows[name].numLastSynced
    {
      if name in rows then rows[name].numLastSynced else 0
    }

    /** `createGroup`: a new row with cursor 0. */
    method CreateGroup(name: string)
      modifies this
      ensures rows == old(rows)[name := GroupRow(0, None, None)]
    {
      rows := rows[name := GroupRow(0, None, None)];
    }

    /** `updateGroupData`: the bounds of a known group; nothing for an unknown one. */
    method UpdateGroupData(name: string, first: Option<int>, last: Option<int>)
      modifies this
      ensures name in old(rows) ==> rows == old(rows)[name := old(rows)[name].(first := first, last := last)]
      ensures name !in old(rows) ==> rows == old(rows)
    {
      if name in rows {
        rows := rows[name := rows[name].(first := first, last := last)];
      }
    }

    /** `updateGroupLastSynced`: the cursor of a known group; nothing for an unknown one. */
    method UpdateLastSynced(name: string, n: int)
      modifies this
      ensures rows == SetCursor(old(rows), name, n)
      ensures LastSynced(name) == if name in old(rows) then n else 0
    {
      rows := SetCursor(rows, name, n);
    }

    /** `updateGroupsList`: keep the wanted groups; create the unknown ones and update the bounds of the others. */
    method UpdateGroupsList(groups: seq<Nntp.GroupListing>) returns (filteredGroups: seq<Nntp.GroupListing>)
      modifies this
      ensures filteredGroups == WantedGroups(groups)
      ensures rows == Registered(old(rows), old(rows.Keys), groups)
    {
      var groupsById := rows.Keys;
      filteredGroups := [];
      for k := 0 to |groups|
        invariant filteredGroups == WantedGroups(groups[..k])
        invariant rows == Registered(old(rows), groupsById, groups[..k])
      {
        var group := groups[k];
        PrefixOfPrefix(groups, k);
        if !StartsWith(group.group, PREFIX) {
          continue;
        }
        if group.group == EXCLUDED {
          continue;
        }
        filteredGroups := filteredGroups + [group];
        if group.group !in groupsById {
          CreateGroup(group.group);
        } else {
          UpdateGroupData(group.group, group.first, group.last);
        }
      }
      WholePrefix(groups);
    }

    /**
     * `downloadAndProcessGroup`: process the numbers after the cursor up to the
     * group's last number, setting the cursor after each. `process` is the
     * per-article step; `false` is a step that throws, which ends the loop.
     * `processed` lists the numbers handed to it, in order.
     */
    method DownloadAndProcessGroup(groupsList: seq<Nntp.GroupListing>, groupName: string, process: (string, int) -> bool)
      returns (r: Result<int, int>, processed: seq<int>)
      modifies this
      ensures var g := Find(groupsList, groupName);
        var s := old(LastSynced(groupName));
        if g.None? || g.value.last.None? || s >= g.value.last.value then
          r == Ok(0) && processed == [] && rows == old(rows)
        else
          var last := g.value.last.value;
          match FirstFailure(process, groupName, s + 1, last)
          case None =>
            r == Ok(last - s) && processed == Range(s + 1, last + 1)
            && rows == SetCursor(old(rows), groupName, last)
          case Some(f) =>
            r == Err(f) && processed == Range(s + 1, f + 1)
            && rows == SetCursor(old(rows), groupName, f - 1)
    {
      processed := [];
      var group := Find(groupsList, groupName);
      if group.None? {
        return Ok(0), [];
      }
      var lastSynced := LastSynced(groupName);
      if group.value.last.None? {
        // `parseInt` gave NaN: both comparisons with it are false, so no number is processed
        return Ok(0), [];
      }
      var last := group.value.last.value;
      if lastSynced >= last {
        return Ok(0), [];
      }
      CursorUnchanged(rows, groupName);
      r, processed := SyncNumbers(groupName, lastSynced, last, process);
    }

    /** The `for` loop of `downloadAndProcessGroup`, over `lastSynced + 1` to `last`. */
    method SyncNumbers(groupName: string, lastSynced: int, last: int, process: (string, int) -> bool)
      returns (r: Result<int, int>, processed: seq<int>)
      modifies this
      requires lastSynced < last && SetCursor(rows, groupName, lastSynced) == rows
      ensures match FirstFailure(process, groupName, lastSynced + 1, last)
        case None =>
          r == Ok(last - lastSynced) && processed == Range(lastSynced + 1, last + 1)
          && rows == SetCursor(old(rows), groupName, last)
        case Some(f) =>
          r == Err(f) && processed == Range(lastSynced + 1, f + 1)
          && rows == SetCursor(old(rows), groupName, f - 1)
    {
      processed := [];
      var articleNumber := lastSynced + 1;
      var numDownloaded := 0;
      while articleNumber <= last
        invariant lastSynced + 1 <= articleNumber <= last + 1
        invariant numDownloaded == articleNumber - (lastSynced + 1)
        invariant processed == Range(lastSynced + 1, articleNumber)
        invariant rows == SetCursor(old(rows), groupName, articleNumber - 1)
        invariant forall n :: lastSynced < n < articleNumber ==> process(groupName, n)
        decreases last - articleNumber
      {
        processed := processed + [articleNumber];
        if !process(groupName, articleNumber) {
          FailureAt(process, groupName, lastSynced + 1, last, articleNumber);
          return Err(articleNumber), processed;
        }
        UpdateLastSynced(groupName, articleNumber);
        SetCursorTwice(old(rows), groupName, articleNumber - 1, articleNumber);
        numDownloaded := numDownloaded + 1;
        articleNumber := articleNumber + 1;
      }
      r := Ok(numDownloaded);
    }
  }

  /** The first failure is the failing number all of whose predecessors succeed. */
  lemma FailureAt(process: (string, int) -> bool, name: string, lo: int, hi: int, a: int)
    requires lo <= a <= hi && !process(name, a)
    requires forall n :: lo <= n < a ==> process(name, n)
    ensures FirstFailure(process, name, lo, hi) == Some(a)
  {
  }

  /** Setting a cursor to the value it has changes nothing. */
  lemma CursorUnchanged(rows: map<string, GroupRow>, name: string)
    ensures SetCursor(rows, name, if name in rows then rows[name].numLastSynced else 0) == rows
  {
  }

  /** The last cursor written is the one that stays. */
  lemma SetCursorTwice(rows: map<string, GroupRow>, name: string, m: int, n: int)
    ensures SetCursor(SetCursor(rows, name, m), name, n) == SetCursor(rows, name, n)
  {
  }

  // -----------------------------------------------------------------------
  // What the listing update does to the rows

  /** A group that is not wanted is neither created nor updated. */
  lemma {:induction false} UnwantedUntouched(rows: map<string, GroupRow>, known: set<string>, listed: seq<Nntp.GroupListing>, name: string)
    requires !Wanted(name)
    ensures (name in Registered(rows, known, listed) <==> name in rows)
    ensures name in rows ==> Registered(rows, known, listed)[name] == rows[name]
    decreases |listed|
  {
    if |listed| > 0 {
      UnwantedUntouched(rows, known, listed[..|listed| - 1], name);
    }
  }

  /** Every wanted listed group has a row afterwards; a new one starts at cursor 0. */
  lemma {:induction false} WantedRegistered(rows: map<string, GroupRow>, listed: seq<Nntp.GroupListing>, k: nat)
    requires k < |listed| && Wanted(listed[k].group)
    ensures listed[k].group in Registered(rows, rows.Keys, listed)
    ensures listed[k].group !in rows ==> Registered(rows, rows.Keys, listed)[listed[k].group].numLastSynced == 0
    decreases |listed|
  {
    var n := |listed| - 1;
    if k < n {
      WantedRegistered(rows, listed[..n], k);
    }
    NewRowsStayAtZero(rows, listed, listed[k].group);
  }

  /** A known wanted group takes the bounds of its last listing and keeps its cursor. */
  lemma {:induction false} KnownTakesLastListing(rows: map<string, GroupRow>, listed: seq<Nntp.GroupListing>, k: nat)
    requires k < |listed| && Wanted(listed[k].group) && listed[k].group in rows
    requires forall j :: k < j < |listed| ==> listed[j].group != listed[k].group
    ensures Registered(rows, rows.Keys, listed)[listed[k].group]
      == rows[listed[k].group].(first := listed[k].first, last := listed[k].last)
    decreases |listed|
  {
    var n := |listed| - 1;
    if k < n {
      KnownTakesLastListing(rows, listed[..n], k);
    } else {
      NewRowsStayAtZero(rows, listed[..n], listed[k].group);
    }
  }

  /** The listing update never moves the cursor of a group: known groups keep theirs, new ones get 0. */
  lemma {:induction false} NewRowsStayAtZero(rows: map<string, GroupRow>, listed: seq<Nntp.GroupListing>, name: string)
    ensures var r := Registered(rows, rows.Keys, listed);
      name in r ==> r[name].numLastSynced == if name in rows then rows[name].numLastSynced else 0
    decreases |listed|
  {
    if |listed| > 0 {
      NewRowsStayAtZero(rows, listed[..|listed| - 1], name);
    }
  }
}
