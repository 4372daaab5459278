/** `ORDER BY requestTimestamp DESC` over audit entries. */
module AuditOrdering {
  import opened Domain

  /** Newest first: timestamps never increase along the sequence. */
  predicate NewestFirst(s: seq<CepAuditLog>) {
    forall i, j :: 0 <= i < j < |s| ==> s[i].requestTimestamp >= s[j].requestTimestamp
  }

  /** An entry no older than the head of a newest-first sequence may go in front of it. */
  lemma PrependNewest(x: CepAuditLog, s: seq<CepAuditLog>)
    requires NewestFirst(s)
    requires s != [] ==> x.requestTimestamp >= s[0].requestTimestamp
    ensures NewestFirst([x] + s)
  {
    var r := [x] + s;
    forall i, j | 0 <= i < j < |r| ensures r[i].requestTimestamp >= r[j].requestTimestamp {
      if i == 0 && j > 1 {
        assert r[j] == s[j - 1];
      }
    }
  }

  /** Places `e` before the first entry older than it. */
  function InsertByTimestamp(e: CepAuditLog, s: seq<CepAuditLog>): (r: seq<CepAuditLog>)
    requires NewestFirst(s)
    ensures NewestFirst(r)
    ensures multiset(r) == multiset(s) + multiset{e}
    ensures |r| == |s| + 1
    ensures r[0].requestTimestamp == e.requestTimestamp || (s != [] && r[0].requestTimestamp == s[0].requestTimestamp)
  {
    if s == [] then [e]
    else if e.requestTimestamp >= s[0].requestTimestamp then PrependNewest(e, s); [e] + s
    else
      var rest := InsertByTimestamp(e, s[1..]);
      assert s == [s[0]] + s[1..];
      PrependNewest(s[0], rest);
      [s[0]] + rest
  }

  /** Orders entries newest first, keeping every entry (ties in any order). */
  function SortNewestFirst(s: seq<CepAuditLog>): (r: seq<CepAuditLog>)
    ensures NewestFirst(r)
    ensures multiset(r) == multiset(s)
  {
    if s == [] then []
    else
      assert s == [s[0]] + s[1..];
      InsertByTimestamp(s[0], SortNewestFirst(s[1..]))
  }

}

/** The audit table (`CepAuditLogRepository`, a Spring Data JPA repository):
    an append-only sequence of entries in insertion order, the identity
    column that numbers them, and the declarative queries over it. */
module AuditRepository {
  import opened Domain
  import opened AuditOrdering

  // ---------------------------------------------------------------------
  // Counting queries
  // ---------------------------------------------------------------------

  /** The number of entries whose `success` column equals `flag`. */
  function CountWhere(log: seq<CepAuditLog>, flag: bool): nat {
    if log == [] then 0
    else CountWhere(log[..|log| - 1], flag) + (if log[|log| - 1].success == flag then 1 else 0)
  }

  /** `countSuccessfulRequests`: `WHERE c.success = true`. */
  function CountSuccessfulRequests(log: seq<CepAuditLog>): (n: nat)
    ensures n == 0 <==> forall i :: 0 <= i < |log| ==> !log[i].success
  {
    CountWhereZero(log, true);
    CountWhere(log, true)
  }

  /** `countFailedRequests`: `WHERE c.success = false`. */
  function CountFailedRequests(log: seq<CepAuditLog>): (n: nat)
    ensures n == 0 <==> forall i :: 0 <= i < |log| ==> log[i].success
  {
    CountWhereZero(log, false);
    CountWhere(log, false)
  }

  /** `success` is a non-null column, so every entry is counted exactly once:
      successful plus failed is the total `count()`. */
  lemma {:induction false} CountsPartition(log: seq<CepAuditLog>)
    ensures CountSuccessfulRequests(log) + CountFailedRequests(log) == |log|
  {
    if log != [] {
      CountsPartition(log[..|log| - 1]);
    }
  }

  /** Appending one entry adds one to the count matching its flag and leaves
      the other count unchanged. */
  lemma CountsAfterAppend(log: seq<CepAuditLog>, e: CepAuditLog)
    ensures CountSuccessfulRequests(log + [e]) == CountSuccessfulRequests(log) + (if e.success then 1 else 0)
    ensures CountFailedRequests(log + [e]) == CountFailedRequests(log) + (if e.success then 0 else 1)
  {
    assert (log + [e])[..|log + [e]| - 1] == log;
  }

  /** Each count is the number of positions holding an entry with that flag;
      a count only reaches zero when no entry has the flag. */
  lemma {:induction false} CountWhereZero(log: seq<CepAuditLog>, flag: bool)
    ensures CountWhere(log, flag) == 0 <==> forall i :: 0 <= i < |log| ==> log[i].success != flag
  {
    if log != [] {
      var init := log[..|log| - 1];
      CountWhereZero(init, flag);
      assert forall i :: 0 <= i < |init| ==> init[i] == log[i];
    }
  }

  // ---------------------------------------------------------------------
  // Selection queries
  // ---------------------------------------------------------------------

  /** The entries satisfying `keep`, in their stored order. */
  function Select(log: seq<CepAuditLog>, keep: CepAuditLog -> bool): (r: seq<CepAuditLog>)
    ensures forall e :: e in r <==> e in log && keep(e)
    ensures forall e :: multiset(r)[e] == if keep(e) then multiset(log)[e] else 0
  {
    if log == [] then []
    else
      assert log == [log[0]] + log[1..];
      assert multiset(log) == multiset([log[0]]) + multiset(log[1..]);
      (if keep(log[0]) then [log[0]] else []) + Select(log[1..], keep)
  }

  /** A page request: zero-based page number and page size (at least one). */
  datatype Pageable = Pageable(page: nat, size: nat)

  /** The slice of `s` a page request selects. */
  function PageOf(s: seq<CepAuditLog>, p: Pageable): (r: seq<CepAuditLog>)
    requires p.size >= 1
    ensures |r| <= p.size
    ensures p.page * p.size <= |s| ==> r == s[p.page * p.size .. if |s| < p.page * p.size + p.size then |s| else p.page * p.size + p.size]
    ensures p.page * p.size > |s| ==> r == []
  {
    var from := p.page * p.size;
    if from > |s| then []
    else if |s| < from + p.size then s[from..]
    else s[from .. from + p.size]
  }

  /** Every entry for one CEP, newest first (before paging). */
  function AllByCep(log: seq<CepAuditLog>, cep: string): (r: seq<CepAuditLog>) {
    SortNewestFirst(Select(log, (e: CepAuditLog) => e.cep == cep))
  }

  /** `findByCepOrderByRequestTimestampDesc(cep, pageable)`: one page of the
      CEP's entries, newest first. */
  function FindByCepOrderByRequestTimestampDesc(log: seq<CepAuditLog>, cep: string, p: Pageable)
    : (r: seq<CepAuditLog>)
    requires p.size >= 1
    ensures NewestFirst(r) && |r| <= p.size
    ensures forall e :: e in r ==> e in log && e.cep == cep
  {
    SortedSelection(log, (e: CepAuditLog) => e.cep == cep);
    PageIsSlice(AllByCep(log, cep), p);
    PageOf(AllByCep(log, cep), p)
  }

  /** `findByRequestTimestampBetween(start, end)`: `BETWEEN` is inclusive at
      both ends; the result is newest first. */
  function FindByRequestTimestampBetween(log: seq<CepAuditLog>, start: int, end: int): (r: seq<CepAuditLog>)
    ensures NewestFirst(r)
    ensures forall e :: e in r <==> e in log && start <= e.requestTimestamp <= end
  {
    SortedSelection(log, (e: CepAuditLog) => start <= e.requestTimestamp <= end);
    SortNewestFirst(Select(log, (e: CepAuditLog) => start <= e.requestTimestamp <= end))
  }

  /** A sorted selection holds exactly the selected entries, each as many
      times as it is stored. */
  lemma SortedSelection(log: seq<CepAuditLog>, keep: CepAuditLog -> bool)
    ensures var r := SortNewestFirst(Select(log, keep));
            NewestFirst(r)
            && (forall e :: e in r <==> e in log && keep(e))
            && (forall e :: multiset(r)[e] == if keep(e) then multiset(log)[e] else 0)
  {
    var selected := Select(log, keep);
    var r := SortNewestFirst(selected);
    assert forall e :: e in r <==> e in multiset(r);
    assert forall e :: e in selected <==> e in multiset(selected);
  }

  /** A page is a contiguous slice: it keeps the order and holds nothing new. */
  lemma PageIsSlice(s: seq<CepAuditLog>, p: Pageable)
    requires p.size >= 1
    ensures NewestFirst(s) ==> NewestFirst(PageOf(s, p))
    ensures forall e :: e in PageOf(s, p) ==> e in s
  {
    var from := p.page * p.size;
    if from <= |s| {
      var to := if |s| < from + p.size then |s| else from + p.size;
      var page := s[from..to];
      assert forall i :: 0 <= i < |page| ==> page[i] == s[from + i];
    }
  }

  /** The by-CEP listing holds exactly the stored entries for that CEP, each as
      many times as it is stored, newest first; every page of it holds only
      entries for that CEP, newest first. */
  lemma ByCepListing(log: seq<CepAuditLog>, cep: string, p: Pageable)
    requires p.size >= 1
    ensures var all := AllByCep(log, cep);
            NewestFirst(all)
            && (forall e :: e in all <==> e in log && e.cep == cep)
            && (forall e :: multiset(all)[e] == if e.cep == cep then multiset(log)[e] else 0)
    ensures var page := FindByCepOrderByRequestTimestampDesc(log, cep, p);
            NewestFirst(page) && forall e :: e in page ==> e in log && e.cep == cep
  {
    SortedSelection(log, (e: CepAuditLog) => e.cep == cep);
    PageIsSlice(AllByCep(log, cep), p);
  }

  /** The time-range query returns exactly the entries with
      `start <= requestTimestamp <= end`, each as many times as stored, newest first. */
  lemma BetweenListing(log: seq<CepAuditLog>, start: int, end: int)
    ensures var r := FindByRequestTimestampBetween(log, start, end);
            NewestFirst(r)
            && (forall e :: e in r <==> e in log && start <= e.requestTimestamp <= end)
            && (forall e :: multiset(r)[e] == if start <= e.requestTimestamp <= end then multiset(log)[e] else 0)
  {
    SortedSelection(log, (e: CepAuditLog) => start <= e.requestTimestamp <= end);
  }

  // ---------------------------------------------------------------------
  // Identity column and lookup by id
  // ---------------------------------------------------------------------

  /** `findById`: the entry carrying `id`, or empty. */
  function FindById(log: seq<CepAuditLog>, id: int): (r: Option<CepAuditLog>)
    ensures r.Some? <==> exists i :: 0 <= i < |log| && log[i].id == Some(id)
    ensures r.Some? ==> r.value in log && r.value.id == Some(id)
  {
    if log == [] then None
    else if log[0].id == Some(id) then Some(log[0])
    else
      var r := FindById(log[1..], id);
      assert forall i :: 1 <= i < |log| ==> log[i] == log[1..][i - 1];
      r
  }

  /** The identity column: every stored entry has an id, ids ascend in
      insertion order, and all are below the next id to hand out. */
  ghost predicate IdsAssigned(log: seq<CepAuditLog>, nextId: int) {
    && (forall i :: 0 <= i < |log| ==> log[i].id.Some? && log[i].id.value < nextId)
    && (forall i, j :: 0 <= i < j < |log| ==> log[i].id.value < log[j].id.value)
  }

  /** Snapshot of the table: its rows, the next identity value, and how many
      inserts have been attempted (the index into the fault schedule). */
  datatype RepoState = RepoState(log: seq<CepAuditLog>, nextId: int, attempts: nat)

  /** `save(entity)` of a new entity: one insert, which either fails with the
      scheduled database fault or stores the entity under the next id. */
  function SaveSpec(faults: nat -> Option<string>, s: RepoState, e: CepAuditLog)
    : (res: (Try<CepAuditLog>, RepoState))
  {
    match faults(s.attempts)
    case Some(msg) => (Throw(StoreFailure(msg)), s.(attempts := s.attempts + 1))
    case None =>
      var saved := e.(id := Some(s.nextId));
      (Ok(saved), RepoState(s.log + [saved], s.nextId + 1, s.attempts + 1))
  }

  /** Saving keeps the identity column consistent, and the saved entry is then
      the one `findById` returns for its new id. */
  lemma SaveThenFind(faults: nat -> Option<string>, s: RepoState, e: CepAuditLog)
    requires IdsAssigned(s.log, s.nextId)
    ensures var (r, s1) := SaveSpec(faults, s, e);
            IdsAssigned(s1.log, s1.nextId)
            && (r.Ok? ==> r.value.id == Some(s.nextId) && FindById(s1.log, s.nextId) == Some(r.value))
  {
    SaveKeepsIds(faults, s, e);
    var (r, s1) := SaveSpec(faults, s, e);
    if r.Ok? {
      FindAfterFreshId(s.log, r.value, s.nextId);
    }
  }

  /** An insert hands out the next id, above every id already stored. */
  lemma SaveKeepsIds(faults: nat -> Option<string>, s: RepoState, e: CepAuditLog)
    requires IdsAssigned(s.log, s.nextId)
    ensures IdsAssigned(SaveSpec(faults, s, e).1.log, SaveSpec(faults, s, e).1.nextId)
  {
  }

  /** Looking up an id that no earlier entry carries finds the appended one. */
  lemma {:induction false} FindAfterFreshId(log: seq<CepAuditLog>, e: CepAuditLog, id: int)
    requires forall i :: 0 <= i < |log| ==> log[i].id != Some(id)
    requires e.id == Some(id)
    ensures FindById(log + [e], id) == Some(e)
  {
    if log != [] {
      assert (log + [e])[1..] == log[1..] + [e];
      FindAfterFreshId(log[1..], e, id);
    }
  }

  /** The repository bean: the table contents plus its database-fault schedule. */
  class CepAuditLogRepository {
    const faults: nat -> Option<string>
    var log: seq<CepAuditLog>
    var nextId: int
    var attempts: nat

    function State(): RepoState
      reads this
    {
      RepoState(log, nextId, attempts)
    }

    ghost predicate Valid()
      reads this
    {
      IdsAssigned(log, nextId)
    }

    /** An empty table whose identity column starts at 1. */
    constructor (faults: nat -> Option<string>)
      ensures this.faults == faults
      ensures State() == RepoState([], 1, 0) && Valid()
    {
      this.faults := faults;
      log, nextId, attempts := [], 1, 0;
    }

    method Save(e: CepAuditLog) returns (r: Try<CepAuditLog>)
      requires Valid()
      modifies this
      ensures Valid()
      ensures (r, State()) == SaveSpec(faults, old(State()), e)
    {
      ghost var before := State();
      var fault := faults(attempts);
      attempts := attempts + 1;
      if fault.Some? {
        return Throw(StoreFailure(fault.value));
      }
      var saved := e.(id := Some(nextId));
      log := log + [saved];
      nextId := nextId + 1;
      r := Ok(saved);
      SaveKeepsIds(faults, before, e);
    }
  }
}
