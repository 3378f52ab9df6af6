/**
 * The local cache: a `projects` table and a `merge_requests` table, each
 * keyed by the forge's global id. SQLite itself is not modelled; a table is
 * a map from id to row, a write batch is a transaction that either commits
 * every row or leaves the table as it was, and a filtered read is the
 * `LIKE` match of the filter against chosen columns, newest first, capped.
 */
module Store {
  import opened Text
  import opened GitLab

  /** A row of `projects`; `lastActivityAt` is in Unix seconds. */
  datatype ProjectRow = ProjectRow(
    id: int,
    pathWithNamespace: string,
    name: string,
    description: string,
    webURL: string,
    namespace: string,
    lastActivityAt: int)

  /** A row of `merge_requests`; `role` says which listing stored it, `createdAt` is in Unix seconds. */
  datatype MergeRequestRow = MergeRequestRow(
    id: int,
    iid: int,
    title: string,
    description: string,
    webURL: string,
    state: string,
    sourceBranch: string,
    targetBranch: string,
    projectPath: string,
    author: string,
    role: string,
    createdAt: int)

  /**
   * Where a write batch fails, if it does: opening the transaction,
   * preparing the statement, executing the statement for the row with the
   * given index, or committing.
   */
  datatype WriteFault = NoFault | BeginFails | PrepareFails | ExecFails(row: nat) | CommitFails
  {
    /** Whether a batch of `n` rows is rolled back under this fault. */
    predicate Aborts(n: nat) {
      BeginFails? || PrepareFails? || CommitFails? || (ExecFails? && row < n)
    }
  }

  // ---------------------------------------------------------------------
  // Rows from API records
  // ---------------------------------------------------------------------

  function ProjectRowOf(p: Project): ProjectRow {
    ProjectRow(p.id, p.pathWithNamespace, p.name, p.description, p.webURL,
               p.namespace.fullPath, p.lastActivityAt)
  }

  function MergeRequestRowOf(mr: MergeRequest, role: string): MergeRequestRow {
    MergeRequestRow(mr.id, mr.iid, mr.title, mr.description, mr.webURL, mr.state,
                    mr.sourceBranch, mr.targetBranch, DerivedProjectPath(mr.references.full),
                    mr.author.username, role, mr.createdAt)
  }

  /** The index of the last `c` in `s`, or -1 when `s` has none. */
  function LastIndexOf(s: string, c: char): (i: int)
    ensures -1 <= i < |s|
    ensures i >= 0 ==> s[i] == c
    ensures forall j :: i < j < |s| ==> s[j] != c
  {
    if |s| == 0 then -1
    else if s[|s| - 1] == c then |s| - 1
    else LastIndexOf(s[..|s| - 1], c)
  }

  /** The backward scan that finds the last `c`. */
  method LastIndex(s: string, c: char) returns (i: int)
    ensures -1 <= i < |s|
    ensures i >= 0 ==> s[i] == c
    ensures forall j :: i < j < |s| ==> s[j] != c
    ensures i == LastIndexOf(s, c)
  {
    i := |s| - 1;
    while i >= 0
      invariant -1 <= i < |s|
      invariant forall j :: i < j < |s| ==> s[j] != c
    {
      if s[i] == c {
        return;
      }
      i := i - 1;
    }
  }

  /**
   * The project path of a merge request, read off its full reference
   * `group/project!iid`: everything before the last `!`, or "" when there
   * is no `!` after the first character.
   */
  function DerivedProjectPath(full: string): (r: string)
    ensures r == "" <==> forall j :: 0 < j < |full| ==> full[j] != '!'
    ensures r != "" ==> |r| < |full| && r == full[..|r|] && full[|r|] == '!'
    ensures r != "" ==> forall j :: |r| < j < |full| ==> full[j] != '!'
  {
    if full == "" then ""
    else
      var idx := LastIndexOf(full, '!');
      if idx > 0 then full[..idx] else ""
  }

  /** The path extraction of the merge-request write: the text before the last `!` past position 0. */
  method ProjectPathOf(full: string) returns (projectPath: string)
    ensures projectPath == DerivedProjectPath(full)
  {
    projectPath := "";
    if full != "" {
      var idx := LastIndex(full, '!');
      if idx > 0 {
        projectPath := full[..idx];
      }
    }
  }

  lemma DecimalHasNoBang(n: int)
    ensures forall j :: 0 <= j < |Decimal(n)| ==> Decimal(n)[j] != '!'
  {
    var r := NatDigits(if n < 0 then -n else n);
    assert forall j :: 0 <= j < |r| ==> IsDigit(r[j]);
  }

  /** A reference built from a project path and an iid gives the path back. */
  lemma DerivedPathOfReference(path: string, iid: int)
    ensures DerivedProjectPath(path + "!" + Decimal(iid)) == path
  {
    var full := path + "!" + Decimal(iid);
    DecimalHasNoBang(iid);
    assert full[|path|] == '!';
    forall j | |path| < j < |full|
      ensures full[j] != '!'
    {
      assert full[j] == Decimal(iid)[j - |path| - 1];
    }
    var idx := LastIndexOf(full, '!');
    assert idx == |path|;
    assert full[..idx] == path;
  }

  // ---------------------------------------------------------------------
  // Replace-by-id batches
  // ---------------------------------------------------------------------

  /** The table after writing `entries` in order, each replacing the row with its key. */
  function Upsert<R>(m: map<int, R>, entries: seq<(int, R)>): map<int, R> {
    if entries == [] then m
    else
      var last := entries[|entries| - 1];
      Upsert(m, entries[..|entries| - 1])[last.0 := last.1]
  }

  /** Writing one more entry of the batch replaces one row. */
  lemma UpsertPrefixStep<R>(m: map<int, R>, entries: seq<(int, R)>, i: int)
    requires 0 <= i < |entries|
    ensures Upsert(m, entries[..i + 1]) == Upsert(m, entries[..i])[entries[i].0 := entries[i].1]
  {
    assert entries[..i + 1][..i] == entries[..i];
  }

  /** A key takes the row of the last entry that carries it, whole. */
  lemma {:induction false} UpsertLatest<R>(m: map<int, R>, entries: seq<(int, R)>, k: int)
    requires 0 <= k < |entries|
    requires forall j :: k < j < |entries| ==> entries[j].0 != entries[k].0
    ensures entries[k].0 in Upsert(m, entries)
    ensures Upsert(m, entries)[entries[k].0] == entries[k].1
    decreases |entries|
  {
    if k < |entries| - 1 {
      UpsertLatest(m, entries[..|entries| - 1], k);
    }
  }

  /** A key that no entry carries keeps its old row, or stays absent. */
  lemma {:induction false} UpsertUntouched<R>(m: map<int, R>, entries: seq<(int, R)>, id: int)
    requires forall j :: 0 <= j < |entries| ==> entries[j].0 != id
    ensures id in Upsert(m, entries) <==> id in m
    ensures id in m ==> Upsert(m, entries)[id] == m[id]
    decreases |entries|
  {
    if entries != [] {
      UpsertUntouched(m, entries[..|entries| - 1], id);
    }
  }

  /** Every row of the new table is either an old row under its key or one of the entries. */
  lemma {:induction false} UpsertEntryOrOld<R>(m: map<int, R>, entries: seq<(int, R)>, id: int)
    requires id in Upsert(m, entries)
    ensures (id in m && Upsert(m, entries)[id] == m[id])
            || exists j :: 0 <= j < |entries| && entries[j] == (id, Upsert(m, entries)[id])
    decreases |entries|
  {
    if entries != [] {
      var init := entries[..|entries| - 1];
      var last := entries[|entries| - 1];
      if id != last.0 {
        UpsertEntryOrOld(m, init, id);
        if !(id in m && Upsert(m, init)[id] == m[id]) {
          var j :| 0 <= j < |init| && init[j] == (id, Upsert(m, init)[id]);
          assert entries[j] == init[j];
        }
      } else {
        assert entries[|entries| - 1] == (id, Upsert(m, entries)[id]);
      }
    }
  }

  /** A key that some entry carries ends up holding the row of one of the entries that carry it. */
  lemma {:induction false} UpsertFromEntries<R>(m: map<int, R>, entries: seq<(int, R)>, id: int)
    requires exists j :: 0 <= j < |entries| && entries[j].0 == id
    ensures id in Upsert(m, entries)
    ensures exists j :: 0 <= j < |entries| && entries[j] == (id, Upsert(m, entries)[id])
    decreases |entries|
  {
    var init := entries[..|entries| - 1];
    var last := entries[|entries| - 1];
    if last.0 == id {
      assert entries[|entries| - 1] == (id, Upsert(m, entries)[id]);
    } else {
      var j :| 0 <= j < |entries| && entries[j].0 == id;
      assert j < |init| && init[j].0 == id;
      UpsertFromEntries(m, init, id);
      var i :| 0 <= i < |init| && init[i] == (id, Upsert(m, init)[id]);
      assert entries[i] == init[i];
    }
  }

  /** No write batch removes a row: the keys only grow. */
  lemma {:induction false} UpsertKeepsKeys<R>(m: map<int, R>, entries: seq<(int, R)>)
    ensures m.Keys <= Upsert(m, entries).Keys
    decreases |entries|
  {
    if entries != [] {
      UpsertKeepsKeys(m, entries[..|entries| - 1]);
    }
  }

  function ProjectEntries(batch: seq<Project>): (r: seq<(int, ProjectRow)>)
    ensures |r| == |batch|
    ensures forall k :: 0 <= k < |batch| ==> r[k] == (batch[k].id, ProjectRowOf(batch[k]))
  {
    seq(|batch|, k requires 0 <= k < |batch| => (batch[k].id, ProjectRowOf(batch[k])))
  }

  function MergeRequestEntries(batch: seq<MergeRequest>, role: string): (r: seq<(int, MergeRequestRow)>)
    ensures |r| == |batch|
    ensures forall k :: 0 <= k < |batch| ==> r[k] == (batch[k].id, MergeRequestRowOf(batch[k], role))
  {
    seq(|batch|, k requires 0 <= k < |batch| => (batch[k].id, MergeRequestRowOf(batch[k], role)))
  }

  /** A project batch keeps every row keyed by its own id. */
  lemma ProjectRowsKeyed(m: map<int, ProjectRow>, batch: seq<Project>)
    requires forall id :: id in m ==> m[id].id == id
    ensures var u := Upsert(m, ProjectEntries(batch));
            forall id :: id in u ==> u[id].id == id
  {
    var u := Upsert(m, ProjectEntries(batch));
    forall id | id in u
      ensures u[id].id == id
    {
      UpsertEntryOrOld(m, ProjectEntries(batch), id);
    }
  }

  /** A merge-request batch keeps every row keyed by its own id. */
  lemma MergeRequestRowsKeyed(m: map<int, MergeRequestRow>, batch: seq<MergeRequest>, role: string)
    requires forall id :: id in m ==> m[id].id == id
    ensures var u := Upsert(m, MergeRequestEntries(batch, role));
            forall id :: id in u ==> u[id].id == id
  {
    var u := Upsert(m, MergeRequestEntries(batch, role));
    forall id | id in u
      ensures u[id].id == id
    {
      UpsertEntryOrOld(m, MergeRequestEntries(batch, role), id);
    }
  }

  /** Some merge request of `batch` has id `id`. */
  predicate HasId(batch: seq<MergeRequest>, id: int) {
    exists j :: 0 <= j < |batch| && batch[j].id == id
  }

  /**
   * A merge-request batch stamped with `role` adds exactly its own ids,
   * gives each of them `role` whatever role the id held before, and leaves
   * every other row alone.
   */
  lemma MergeRequestBatchEffect(m: map<int, MergeRequestRow>, batch: seq<MergeRequest>, role: string)
    ensures var u := Upsert(m, MergeRequestEntries(batch, role));
            && (forall id :: id in u <==> id in m || HasId(batch, id))
            && (forall id :: HasId(batch, id) ==> id in u && u[id].role == role)
            && (forall id :: !HasId(batch, id) && id in m ==> u[id] == m[id])
  {
    var entries := MergeRequestEntries(batch, role);
    var u := Upsert(m, entries);
    forall id | HasId(batch, id)
      ensures id in u && u[id].role == role
    {
      var j :| 0 <= j < |batch| && batch[j].id == id;
      assert entries[j].0 == id;
      UpsertFromEntries(m, entries, id);
    }
    forall id | !HasId(batch, id)
      ensures id in u <==> id in m
      ensures id in m ==> u[id] == m[id]
    {
      forall j | 0 <= j < |entries|
        ensures entries[j].0 != id
      {
        assert entries[j].0 == batch[j].id;
      }
      UpsertUntouched(m, entries, id);
    }
  }

  // ---------------------------------------------------------------------
  // LIKE
  // ---------------------------------------------------------------------

  /**
   * SQLite's `LIKE` without an ESCAPE clause: `%` matches any run of
   * characters, `_` any one character, and other characters match up to
   * ASCII case.
   */
  predicate Like(p: string, s: string)
    decreases |p| + |s|
  {
    if |p| == 0 then |s| == 0
    else if p[0] == '%' then Like(p[1..], s) || (|s| > 0 && Like(p, s[1..]))
    else |s| > 0 && (p[0] == '_' || LowerChar(p[0]) == LowerChar(s[0])) && Like(p[1..], s[1..])
  }

  /** The pattern a read builds from a non-empty filter. */
  function Surround(q: string): string {
    "%" + q + "%"
  }

  /** A filter with no wildcard characters in it. */
  predicate Plain(q: string) {
    forall i :: 0 <= i < |q| ==> q[i] != '%' && q[i] != '_'
  }

  /** `s` starts with `q` up to ASCII case. */
  predicate FoldPrefix(s: string, q: string) {
    |q| <= |s| && forall i :: 0 <= i < |q| ==> LowerChar(s[i]) == LowerChar(q[i])
  }

  lemma {:induction false} LikeAnything(s: string)
    ensures Like("%", s)
    decreases |s|
  {
    assert "%"[1..] == "";
    if |s| > 0 {
      LikeAnything(s[1..]);
    }
  }

  lemma {:induction false} LikePrefix(q: string, s: string)
    requires Plain(q)
    ensures Like(q + "%", s) <==> FoldPrefix(s, q)
    decreases |q|
  {
    if |q| == 0 {
      assert q + "%" == "%";
      LikeAnything(s);
    } else {
      assert (q + "%")[0] == q[0];
      assert (q + "%")[1..] == q[1..] + "%";
      if |s| > 0 {
        LikePrefix(q[1..], s[1..]);
        if FoldPrefix(s[1..], q[1..]) && LowerChar(s[0]) == LowerChar(q[0]) {
          forall i | 0 <= i < |q|
            ensures LowerChar(s[i]) == LowerChar(q[i])
          {
            if i > 0 {
              assert s[1..][i - 1] == s[i] && q[1..][i - 1] == q[i];
            }
          }
        }
        if FoldPrefix(s, q) {
          forall i | 0 <= i < |q| - 1
            ensures LowerChar(s[1..][i]) == LowerChar(q[1..][i])
          {
            assert s[1..][i] == s[i + 1] && q[1..][i] == q[i + 1];
          }
        }
      }
    }
  }

  lemma {:induction false} LikeLeading(r: string, s: string)
    ensures Like("%" + r, s) <==> exists i :: 0 <= i <= |s| && Like(r, s[i..])
    decreases |s|
  {
    var p := "%" + r;
    assert p[0] == '%' && p[1..] == r;
    assert s[0..] == s;
    if |s| > 0 {
      LikeLeading(r, s[1..]);
      if Like(p, s) && !Like(r, s) {
        assert Like(p, s[1..]);
        var i :| 0 <= i <= |s[1..]| && Like(r, s[1..][i..]);
        assert s[1..][i..] == s[i + 1..];
      }
      if exists i :: 0 <= i <= |s| && Like(r, s[i..]) {
        var i :| 0 <= i <= |s| && Like(r, s[i..]);
        if i > 0 {
          assert s[1..][i - 1..] == s[i..];
        }
      }
    }
  }

  /** A case-insensitive prefix at `i` is an occurrence of the lowered filter in the lowered text. */
  lemma FoldPrefixOccurs(q: string, s: string, i: int)
    requires 0 <= i <= |s|
    ensures FoldPrefix(s[i..], q) <==> OccursAt(Lower(s), Lower(q), i)
  {
    var ls, lq := Lower(s), Lower(q);
    if FoldPrefix(s[i..], q) {
      assert ls[i..i + |lq|] == lq by {
        forall k | 0 <= k < |lq|
          ensures ls[i..i + |lq|][k] == lq[k]
        {
          assert s[i..][k] == s[i + k];
        }
      }
    }
    if OccursAt(ls, lq, i) {
      forall k | 0 <= k < |q|
        ensures LowerChar(s[i..][k]) == LowerChar(q[k])
      {
        assert ls[i..i + |lq|][k] == lq[k];
      }
    }
  }

  /** For a filter without wildcards, the read's pattern is a case-insensitive substring test. */
  lemma LikeIsSubstring(q: string, s: string)
    requires Plain(q)
    ensures Like(Surround(q), s) <==> Contains(Lower(s), Lower(q))
  {
    assert Surround(q) == "%" + (q + "%");
    LikeLeading(q + "%", s);
    if Like(Surround(q), s) {
      var i :| 0 <= i <= |s| && Like(q + "%", s[i..]);
      LikePrefix(q, s[i..]);
      FoldPrefixOccurs(q, s, i);
    }
    if Contains(Lower(s), Lower(q)) {
      var i: int :| 0 <= i <= |Lower(s)| - |Lower(q)| && OccursAt(Lower(s), Lower(q), i);
      FoldPrefixOccurs(q, s, i);
      LikePrefix(q, s[i..]);
    }
  }

  /** The filter of a project read: path or name. */
  predicate ProjectMatches(q: string, r: ProjectRow) {
    q == "" || Like(Surround(q), r.pathWithNamespace) || Like(Surround(q), r.name)
  }

  /** The filter of a merge-request read: title, project path or source branch. */
  predicate MergeRequestMatches(q: string, r: MergeRequestRow) {
    q == "" || Like(Surround(q), r.title) || Like(Surround(q), r.projectPath)
    || Like(Surround(q), r.sourceBranch)
  }

  /** The filter of a drill-down read: the row's project is one of `paths`, and the filter matches it or its iid. */
  predicate DrillDownMatches(paths: seq<string>, q: string, r: MergeRequestRow) {
    r.projectPath in paths && (MergeRequestMatches(q, r) || Like(Surround(q), Decimal(r.iid)))
  }

  function ProjectFilter(q: string): ProjectRow -> bool {
    r => ProjectMatches(q, r)
  }

  function MergeRequestFilter(q: string): MergeRequestRow -> bool {
    r => MergeRequestMatches(q, r)
  }

  function DrillDownFilter(paths: seq<string>, q: string): MergeRequestRow -> bool {
    r => DrillDownMatches(paths, q, r)
  }

  function ActivityOf(r: ProjectRow): int {
    r.lastActivityAt
  }

  function CreatedOf(r: MergeRequestRow): int {
    r.createdAt
  }

  /** The row cap of a read: 200 rows for a filter, the 50 most recent without one. */
  function Limit(q: string): (n: nat)
    ensures n == 50 || n == 200
    ensures q == "" <==> n == 50
  {
    if q == "" then 50 else 200
  }

  // ---------------------------------------------------------------------
  // Newest first
  // ---------------------------------------------------------------------

  /** No two keys of `table` hold the same row. */
  ghost predicate Injective<R>(table: map<int, R>) {
    forall a, b :: a in table && b in table && a != b ==> table[a] != table[b]
  }

  /**
   * `result` is what `ORDER BY stamp DESC LIMIT limit` returns from the rows
   * of `table` that `keep` accepts: only such rows, each once, newest first,
   * at most `limit` of them, and a row is left out only when the cap is
   * reached by rows at least as new.
   */
  ghost predicate NewestFirst<R>(table: map<int, R>, keep: R -> bool, stamp: R -> int,
                                    limit: nat, result: seq<R>)
  {
    && |result| <= limit
    && (forall i :: 0 <= i < |result| ==> result[i] in table.Values && keep(result[i]))
    && (forall i, j :: 0 <= i < j < |result| ==> result[i] != result[j])
    && (forall i, j :: 0 <= i < j < |result| ==> stamp(result[i]) >= stamp(result[j]))
    && (forall id :: id in table && keep(table[id]) && table[id] !in result ==>
          |result| == limit && forall i :: 0 <= i < |result| ==> stamp(table[id]) <= stamp(result[i]))
  }

  lemma NewestExists<R>(table: map<int, R>, ids: set<int>, stamp: R -> int)
    requires ids != {} && ids <= table.Keys
    ensures exists b :: b in ids && forall o :: o in ids ==> stamp(table[o]) <= stamp(table[b])
    decreases |ids|
  {
    assert (forall y :: y !in ids) ==> ids == {};
    var x :| x in ids;
    var rest := ids - {x};
    if rest != {} {
      NewestExists(table, rest, stamp);
      var b :| b in rest && forall o :: o in rest ==> stamp(table[o]) <= stamp(table[b]);
      if stamp(table[x]) > stamp(table[b]) {
        assert forall o :: o in ids ==> stamp(table[o]) <= stamp(table[x]);
      } else {
        assert forall o :: o in ids ==> stamp(table[o]) <= stamp(table[b]);
      }
    } else {
      forall o | o in ids
        ensures o == x
      {
        assert o !in rest;
      }
    }
  }

  /**
   * Partway through the sort-and-limit: `result` holds the newest matching
   * rows taken so far, in order, and `remaining` the ids of those not taken.
   */
  ghost predicate Selecting<R>(table: map<int, R>, keep: R -> bool, stamp: R -> int, limit: nat,
                               result: seq<R>, remaining: set<int>)
  {
    && remaining <= table.Keys
    && (forall id :: id in remaining ==> keep(table[id]))
    && |result| <= limit
    && (forall id :: id in table && keep(table[id]) ==> (id in remaining <==> table[id] !in result))
    && (forall i :: 0 <= i < |result| ==> result[i] in table.Values && keep(result[i]))
    && (forall i, j :: 0 <= i < j < |result| ==> result[i] != result[j])
    && (forall i, j :: 0 <= i < j < |result| ==> stamp(result[i]) >= stamp(result[j]))
    && (forall id, i :: id in remaining && 0 <= i < |result| ==> stamp(table[id]) <= stamp(result[i]))
  }

  /** The engine's sort-and-limit: repeatedly takes a newest remaining matching row. */
  method SelectNewest<R(==)>(table: map<int, R>, keep: R -> bool, stamp: R -> int, limit: nat)
    returns (result: seq<R>)
    requires Injective(table)
    ensures NewestFirst(table, keep, stamp, limit, result)
  {
    result := [];
    var remaining := set id | id in table && keep(table[id]);
    while |result| < limit && remaining != {}
      invariant Selecting(table, keep, stamp, limit, result, remaining)
      decreases |remaining|
    {
      result, remaining := TakeNewest(table, keep, stamp, limit, result, remaining);
    }
  }

  /** One step of the sort-and-limit: moves a newest remaining row to the end of `result`. */
  method TakeNewest<R(==)>(table: map<int, R>, keep: R -> bool, stamp: R -> int, limit: nat,
                           result: seq<R>, remaining: set<int>)
    returns (result': seq<R>, remaining': set<int>)
    requires Injective(table)
    requires Selecting(table, keep, stamp, limit, result, remaining)
    requires |result| < limit && remaining != {}
    ensures Selecting(table, keep, stamp, limit, result', remaining')
    ensures |remaining'| < |remaining|
    ensures |result'| == |result| + 1 && result'[..|result|] == result
  {
    NewestExists(table, remaining, stamp);
    var best :| best in remaining && forall o :: o in remaining ==> stamp(table[o]) <= stamp(table[best]);
    assert table[best] in table.Values;
    result' := result + [table[best]];
    remaining' := remaining - {best};
  }

  // ---------------------------------------------------------------------
  // The store
  // ---------------------------------------------------------------------

  class Store {
    var projects: map<int, ProjectRow>
    var mergeRequests: map<int, MergeRequestRow>

    /** Each table is keyed by its rows' own ids (the primary key). */
    ghost predicate Valid()
      reads this
    {
      && (forall id :: id in projects ==> projects[id].id == id)
      && (forall id :: id in mergeRequests ==> mergeRequests[id].id == id)
    }

    constructor()
      ensures Valid()
      ensures projects == map[] && mergeRequests == map[]
    {
      projects := map[];
      mergeRequests := map[];
    }

    /** Writes every project of `batch` in one transaction, each replacing the row with its id. */
    method UpsertProjects(batch: seq<Project>, fault: WriteFault) returns (ok: bool)
      requires Valid()
      modifies this
      ensures Valid()
      ensures ok <==> !fault.Aborts(|batch|)
      ensures projects == if ok then Upsert(old(projects), ProjectEntries(batch)) else old(projects)
      ensures mergeRequests == old(mergeRequests)
    {
      if fault.BeginFails? || fault.PrepareFails? {
        return false;
      }
      ghost var entries := ProjectEntries(batch);
      var tx := projects;
      for i := 0 to |batch|
        invariant tx == Upsert(projects, entries[..i])
        invariant !(fault.ExecFails? && fault.row < i)
        invariant unchanged(this)
      {
        if fault == ExecFails(i) {
          return false;
        }
        var p := batch[i];
        UpsertPrefixStep(projects, entries, i);
        tx := tx[p.id := ProjectRowOf(p)];
      }
      if fault.CommitFails? {
        return false;
      }
      assert entries[..|batch|] == entries;
      ProjectRowsKeyed(projects, batch);
      projects := tx;
      ok := true;
    }

    /** Writes every merge request of `batch`, stamped with `role`, in one transaction. */
    method UpsertMergeRequests(batch: seq<MergeRequest>, role: string, fault: WriteFault) returns (ok: bool)
      requires Valid()
      modifies this
      ensures Valid()
      ensures ok <==> !fault.Aborts(|batch|)
      ensures mergeRequests == if ok then Upsert(old(mergeRequests), MergeRequestEntries(batch, role))
                               else old(mergeRequests)
      ensures projects == old(projects)
    {
      if fault.BeginFails? || fault.PrepareFails? {
        return false;
      }
      ghost var entries := MergeRequestEntries(batch, role);
      var tx := mergeRequests;
      for i := 0 to |batch|
        invariant tx == Upsert(mergeRequests, entries[..i])
        invariant !(fault.ExecFails? && fault.row < i)
        invariant unchanged(this)
      {
        if fault == ExecFails(i) {
          return false;
        }
        var mr := batch[i];
        var projectPath := ProjectPathOf(mr.references.full);
        var row := MergeRequestRow(mr.id, mr.iid, mr.title, mr.description, mr.webURL, mr.state,
                                   mr.sourceBranch, mr.targetBranch, projectPath,
                                   mr.author.username, role, mr.createdAt);
        UpsertPrefixStep(mergeRequests, entries, i);
        tx := tx[mr.id := row];
      }
      if fault.CommitFails? {
        return false;
      }
      assert entries[..|batch|] == entries;
      MergeRequestRowsKeyed(mergeRequests, batch, role);
      mergeRequests := tx;
      ok := true;
    }

    /** Deletes every merge request; projects are untouched. */
    method ClearMergeRequests(fails: bool) returns (ok: bool)
      requires Valid()
      modifies this
      ensures Valid()
      ensures ok == !fails
      ensures mergeRequests == if ok then map[] else old(mergeRequests)
      ensures projects == old(projects)
    {
      if fails {
        return false;
      }
      mergeRequests := map[];
      ok := true;
    }

    /** The project read of the launcher: a failed read yields no rows. */
    method QueryProjects(q: string, readFails: bool) returns (result: seq<ProjectRow>)
      requires Valid()
      ensures readFails ==> result == []
      ensures !readFails ==> NewestFirst(projects, ProjectFilter(q), ActivityOf, Limit(q), result)
    {
      if readFails {
        return [];
      }
      result := SelectNewest(projects, ProjectFilter(q), ActivityOf, Limit(q));
    }

    /** The merge-request read of the launcher: a failed read yields no rows. */
    method QueryMergeRequests(q: string, readFails: bool) returns (result: seq<MergeRequestRow>)
      requires Valid()
      ensures readFails ==> result == []
      ensures !readFails ==> NewestFirst(mergeRequests, MergeRequestFilter(q), CreatedOf, Limit(q), result)
    {
      if readFails {
        return [];
      }
      result := SelectNewest(mergeRequests, MergeRequestFilter(q), CreatedOf, Limit(q));
    }

    /** The drill-down read: merge requests of the given projects matching `q` or by iid. */
    method QueryMergeRequestsForProjects(paths: seq<string>, q: string, readFails: bool)
      returns (result: seq<MergeRequestRow>)
      requires Valid()
      ensures readFails ==> result == []
      ensures !readFails ==> NewestFirst(mergeRequests, DrillDownFilter(paths, q), CreatedOf, Limit(q), result)
    {
      if readFails {
        return [];
      }
      result := SelectNewest(mergeRequests, DrillDownFilter(paths, q), CreatedOf, Limit(q));
    }

    /** The web URL of the project whose id `idText` spells, or "" when there is none. */
    function ProjectWebURL(idText: string, readFails: bool): (url: string)
      reads this
      ensures readFails ==> url == ""
      ensures !readFails && ParseDecimal(idText).Some? && ParseDecimal(idText).value in projects ==>
                url == projects[ParseDecimal(idText).value].webURL
      ensures (ParseDecimal(idText).None? || ParseDecimal(idText).value !in projects) ==> url == ""
    {
      if readFails then ""
      else match ParseDecimal(idText)
        case Some(id) => if id in projects then projects[id].webURL else ""
        case None => ""
    }

    /** The web URL of the merge request whose id `idText` spells, or "" when there is none. */
    function MergeRequestWebURL(idText: string, readFails: bool): (url: string)
      reads this
      ensures readFails ==> url == ""
      ensures !readFails && ParseDecimal(idText).Some? && ParseDecimal(idText).value in mergeRequests ==>
                url == mergeRequests[ParseDecimal(idText).value].webURL
      ensures (ParseDecimal(idText).None? || ParseDecimal(idText).value !in mergeRequests) ==> url == ""
    {
      if readFails then ""
      else match ParseDecimal(idText)
        case Some(id) => if id in mergeRequests then mergeRequests[id].webURL else ""
        case None => ""
    }
  }

  /** Writing a row and looking it up by its decimal id gives its web URL back. */
  lemma ProjectWebURLRoundTrip(s: Store, id: int)
    requires id in s.projects
    ensures s.ProjectWebURL(Decimal(id), false) == s.projects[id].webURL
  {
    DecimalRoundTrip(id);
  }

  lemma MergeRequestWebURLRoundTrip(s: Store, id: int)
    requires id in s.mergeRequests
    ensures s.MergeRequestWebURL(Decimal(id), false) == s.mergeRequests[id].webURL
  {
    DecimalRoundTrip(id);
  }
}
