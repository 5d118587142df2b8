/**
 The store as a class, and its reads. Every read is specified against a database value
 and, on the store, proved to answer from the plain map of all writes so far.
 */
module ReplayReads {
  import opened Common
  import opened PyStrings
  import opened ReplayStore

  // ------------------------------------------------------------- list_runs

  datatype RunSummary = RunSummary(id: string, row: RunRow, stepCount: nat)

  function TenantRuns(db: Db, tenant: string): (ids: set<string>) {
    set id | id in db.runs && db.runs[id].tenant == tenant
  }

  function StepIndices(db: Db, id: string): (indices: set<int>) {
    set k | k in db.steps && k.0 == id :: k.1
  }

  function Ids(rows: seq<RunSummary>): (ids: set<string>) {
    set i | 0 <= i < |rows| :: rows[i].id
  }

  predicate IsRow(db: Db, row: RunSummary) {
    row.id in db.runs && row.row == db.runs[row.id] && row.stepCount == |StepIndices(db, row.id)|
  }

  /** Rows of the tenant's runs, latest start first, none of the runs in `left` later than any of them. */
  predicate NewestFirst(db: Db, tenant: string, rows: seq<RunSummary>, left: set<string>) {
    && left <= TenantRuns(db, tenant)
    && Ids(rows) == TenantRuns(db, tenant) - left
    && (forall i :: 0 <= i < |rows| ==> IsRow(db, rows[i]) && rows[i].id !in left)
    && (forall i, j :: 0 <= i < j < |rows| ==>
          rows[i].id != rows[j].id && rows[i].row.startedAt >= rows[j].row.startedAt)
    && (forall i, id :: 0 <= i < |rows| && id in left ==> rows[i].row.startedAt >= db.runs[id].startedAt)
  }

  /** The newest runs of a tenant: at most max(1, limit) of them, and all if they fit. */
  predicate IsListing(db: Db, tenant: string, limit: int, rows: seq<RunSummary>) {
    var left := TenantRuns(db, tenant) - Ids(rows);
    NewestFirst(db, tenant, rows, left) && |rows| <= Max(1, limit) && (left == {} || |rows| == Max(1, limit))
  }

  predicate IsLatest(db: Db, ids: set<string>, best: string) {
    best in ids && best in db.runs
    && forall id :: id in ids ==> id in db.runs && db.runs[id].startedAt <= db.runs[best].startedAt
  }

  lemma {:induction false} LatestExists(db: Db, ids: set<string>) returns (best: string)
    requires ids != {} && ids <= db.runs.Keys
    ensures IsLatest(db, ids, best)
    decreases |ids|
  {
    var first :| first in ids;
    var rest := ids - {first};
    best := first;
    if rest != {} {
      var other := LatestExists(db, rest);
      if db.runs[other].startedAt > db.runs[first].startedAt {
        best := other;
      }
    }
    forall id | id in ids ensures id in db.runs && db.runs[id].startedAt <= db.runs[best].startedAt {
      assert id == first || id in rest;
    }
  }

  lemma AddRow(db: Db, tenant: string, rows: seq<RunSummary>, left: set<string>, row: RunSummary)
    requires NewestFirst(db, tenant, rows, left) && IsLatest(db, left, row.id) && IsRow(db, row)
    ensures NewestFirst(db, tenant, rows + [row], left - {row.id})
  {
    var more := rows + [row];
    assert Ids(more) == Ids(rows) + {row.id} by {
      assert more[|rows|] == row && forall i :: 0 <= i < |rows| ==> more[i] == rows[i];
    }
  }

  method SelectRuns(db: Db, tenant: string, limit: int) returns (rows: seq<RunSummary>)
    ensures IsListing(db, tenant, limit, rows)
  {
    rows := [];
    var left := TenantRuns(db, tenant);
    while left != {} && |rows| < Max(1, limit)
      invariant NewestFirst(db, tenant, rows, left) && |rows| <= Max(1, limit)
      decreases |left|
    {
      ghost var best := LatestExists(db, left);
      var id :| id in left && IsLatest(db, left, id);
      var row := RunSummary(id, db.runs[id], |StepIndices(db, id)|);
      AddRow(db, tenant, rows, left, row);
      rows := rows + [row];
      left := left - {id};
    }
    assert left == TenantRuns(db, tenant) - Ids(rows);
  }

  // ------------------------------------------------------------- get_run

  datatype StepView = StepView(index: int, step: StepRow)

  /** The step rows of a run in strictly increasing index order, each exactly once. */
  ghost predicate IsStepRows(db: Db, id: string, rows: seq<StepView>) {
    && (forall i, j :: 0 <= i < j < |rows| ==> rows[i].index < rows[j].index)
    && (forall i :: 0 <= i < |rows| ==>
          (id, rows[i].index) in db.steps && rows[i].step == db.steps[(id, rows[i].index)])
    && (forall k :: k in StepIndices(db, id) ==> exists i :: 0 <= i < |rows| && rows[i].index == k)
  }

  predicate IsLeast(s: set<int>, m: int) {
    m in s && forall x :: x in s ==> m <= x
  }

  lemma {:induction false} LeastExists(s: set<int>) returns (m: int)
    requires s != {}
    ensures IsLeast(s, m)
    decreases |s|
  {
    var first := AnyMember(s);
    var rest := s - {first};
    m := first;
    if rest != {} {
      var other := LeastExists(rest);
      if other < first {
        m := other;
      }
    }
    forall x | x in s ensures m <= x {
      assert x == first || x in rest;
    }
  }

  /** The rows taken so far, when the indices in `left` are still to come. */
  predicate StepsSoFar(db: Db, id: string, rows: seq<StepView>, left: set<int>) {
    && (forall i :: 0 <= i < |rows| ==>
          (id, rows[i].index) in db.steps && rows[i].step == db.steps[(id, rows[i].index)])
    && (forall i, j :: 0 <= i < j < |rows| ==> rows[i].index < rows[j].index)
    && (forall i, k :: 0 <= i < |rows| && k in left ==> rows[i].index < k)
    && (forall k :: k in StepIndices(db, id) ==> k in left || exists i :: 0 <= i < |rows| && rows[i].index == k)
  }

  lemma TakeStep(db: Db, id: string, rows: seq<StepView>, left: set<int>, m: int)
    requires StepsSoFar(db, id, rows, left) && IsLeast(left, m) && (id, m) in db.steps
    ensures StepsSoFar(db, id, rows + [StepView(m, db.steps[(id, m)])], left - {m})
  {
    var more := rows + [StepView(m, db.steps[(id, m)])];
    assert more[|rows|].index == m && forall i :: 0 <= i < |rows| ==> more[i] == rows[i];
    forall k | k in StepIndices(db, id) && k !in left - {m} ensures exists i :: 0 <= i < |more| && more[i].index == k {
      if k != m {
        var i :| 0 <= i < |rows| && rows[i].index == k;
        assert more[i].index == k;
      }
    }
  }

  method SelectSteps(db: Db, id: string) returns (rows: seq<StepView>)
    ensures IsStepRows(db, id, rows) && |rows| == |StepIndices(db, id)|
  {
    rows := [];
    var left := StepIndices(db, id);
    while left != {}
      invariant left <= StepIndices(db, id) && |rows| + |left| == |StepIndices(db, id)|
      invariant StepsSoFar(db, id, rows, left)
      decreases |left|
    {
      ghost var best := LeastExists(left);
      var m :| m in left && IsLeast(left, m);
      TakeStep(db, id, rows, left, m);
      rows := rows + [StepView(m, db.steps[(id, m)])];
      left := left - {m};
    }
  }

  /** Such rows are determined by the database. */
  lemma {:induction false} StepRowsUnique(db: Db, id: string, a: seq<StepView>, b: seq<StepView>, i: nat)
    requires IsStepRows(db, id, a) && IsStepRows(db, id, b) && i <= |a| && i <= |b|
    requires forall k :: 0 <= k < i ==> a[k] == b[k]
    ensures a == b
    decreases |a| - i
  {
    if i < |a| {
      var j := RowOf(db, id, b, a[i].index);
      assert j >= i;
      var k := RowOf(db, id, a, b[i].index);
      assert k >= i;
      StepRowsUnique(db, id, a, b, i + 1);
    } else if i < |b| {
      var k := RowOf(db, id, a, b[i].index);
    }
  }

  lemma RowOf(db: Db, id: string, rows: seq<StepView>, index: int) returns (i: nat)
    requires IsStepRows(db, id, rows) && (id, index) in db.steps
    ensures i < |rows| && rows[i].index == index
  {
    assert index in StepIndices(db, id);
    i :| 0 <= i < |rows| && rows[i].index == index;
  }

  /** What get_run reports; screenshots are decrypted, or left out when not asked for. */
  datatype RunView = RunView(row: RunRow, steps: seq<StepView>, stepCount: nat, screenshotSteps: nat,
                             firstTs: Option<real>, lastTs: Option<real>, distinctUrls: nat)

  function Shown(key: Option<Fernet>, hydrate: bool, step: StepRow): (r: StepRow) {
    step.(screenshot := if hydrate then DecryptScreenshot(key, step.screenshot) else None)
  }

  /** A hydrated read shows each screenshot as it was given when the step was added, unless it began
      with the marker of encrypted ones; a bare read shows none; nothing else of a step differs. */
  lemma ShownAsGiven(key: Option<Fernet>, step: StepRow, nonce: nat)
    requires key.Some? ==> Sound(key.value)
    requires step.screenshot.Some? ==> !StartsWith(step.screenshot.value, ENCRYPTED_PREFIX)
    ensures var stored := step.(screenshot := EncryptScreenshot(key, step.screenshot, nonce));
      Shown(key, true, stored) == step && Shown(key, false, stored) == step.(screenshot := None)
  {
    if step.screenshot.Some? {
      ScreenshotRoundTrip(key, step.screenshot.value, nonce);
    }
  }

  /** Steps counted as having a screenshot: hydrated reads skip empty ones, the SQL count does not. */
  predicate Counted(hydrate: bool, step: StepRow) {
    step.screenshot.Some? && (hydrate ==> step.screenshot.value != "")
  }

  function CountedSteps(db: Db, id: string, hydrate: bool): (indices: set<int>) {
    set k | k in StepIndices(db, id) && Counted(hydrate, db.steps[(id, k)])
  }

  function Urls(db: Db, id: string): (urls: set<string>) {
    set k | k in StepIndices(db, id) && db.steps[(id, k)].url != "" :: db.steps[(id, k)].url
  }

  ghost predicate IsRunView(db: Db, key: Option<Fernet>, id: string, hydrate: bool, v: RunView, rows: seq<StepView>) {
    && id in db.runs && v.row == db.runs[id]
    && IsStepRows(db, id, rows)
    && |v.steps| == |rows| == v.stepCount == |StepIndices(db, id)|
    && (forall i :: 0 <= i < |rows| ==> v.steps[i] == StepView(rows[i].index, Shown(key, hydrate, rows[i].step)))
    && v.screenshotSteps == |CountedSteps(db, id, hydrate)|
    && v.distinctUrls == |Urls(db, id)|
    && v.firstTs == (if rows == [] then None else Some(rows[0].step.ts))
    && v.lastTs == (if rows == [] then None else Some(rows[|rows| - 1].step.ts))
  }

  /** The answer of get_run on a database: None unless the tenant owns the run. */
  ghost predicate AnswersGetRun(db: Db, key: Option<Fernet>, id: string, hydrate: bool, tenant: string,
                                r: Option<RunView>) {
    if id !in TenantRuns(db, tenant) then r.None?
    else r.Some? && exists rows :: IsRunView(db, key, id, hydrate, r.value, rows)
  }

  lemma ViewUnique(db: Db, key: Option<Fernet>, id: string, hydrate: bool, a: RunView, b: RunView, rows: seq<StepView>)
    requires IsRunView(db, key, id, hydrate, a, rows) && IsRunView(db, key, id, hydrate, b, rows)
    ensures a == b
  {
    hide IsStepRows, StepIndices, CountedSteps, Urls, Shown;
    assert |a.steps| == |b.steps| && forall i :: 0 <= i < |rows| ==> a.steps[i] == b.steps[i];
    assert a.steps == b.steps;
  }

  lemma ViewRows(db: Db, key: Option<Fernet>, id: string, hydrate: bool, a: RunView, rows: seq<StepView>)
    requires IsRunView(db, key, id, hydrate, a, rows)
    ensures IsStepRows(db, id, rows)
  {
  }

  /** The specification leaves no choice: two answers are the same answer. */
  lemma GetRunAnswerUnique(db: Db, key: Option<Fernet>, id: string, hydrate: bool, tenant: string,
                           a: Option<RunView>, b: Option<RunView>)
    requires AnswersGetRun(db, key, id, hydrate, tenant, a) && AnswersGetRun(db, key, id, hydrate, tenant, b)
    ensures a == b
  {
    hide IsRunView, IsStepRows, TenantRuns;
    if id in TenantRuns(db, tenant) {
      var x :| IsRunView(db, key, id, hydrate, a.value, x);
      var y :| IsRunView(db, key, id, hydrate, b.value, y);
      ViewRows(db, key, id, hydrate, a.value, x);
      ViewRows(db, key, id, hydrate, b.value, y);
      StepRowsUnique(db, id, x, y, 0);
      ViewUnique(db, key, id, hydrate, a.value, b.value, x);
    }
  }

  /** How many of the first n rows are counted, and the URLs they show. */
  function ShotsIn(hydrate: bool, rows: seq<StepView>, n: nat): (c: nat)
    requires n <= |rows|
  {
    if n == 0 then 0 else ShotsIn(hydrate, rows, n - 1) + if Counted(hydrate, rows[n - 1].step) then 1 else 0
  }

  function UrlsIn(rows: seq<StepView>, n: nat): (urls: set<string>)
    requires n <= |rows|
  {
    if n == 0 then {}
    else UrlsIn(rows, n - 1) + if rows[n - 1].step.url != "" then {rows[n - 1].step.url} else {}
  }

  function CountedUpTo(hydrate: bool, rows: seq<StepView>, n: nat): (indices: set<int>)
    requires n <= |rows|
  {
    if n == 0 then {}
    else CountedUpTo(hydrate, rows, n - 1) + if Counted(hydrate, rows[n - 1].step) then {rows[n - 1].index} else {}
  }

  lemma {:induction false} CountedMembers(hydrate: bool, rows: seq<StepView>, n: nat, x: int)
    requires n <= |rows|
    ensures x in CountedUpTo(hydrate, rows, n)
            <==> exists k :: 0 <= k < n && rows[k].index == x && Counted(hydrate, rows[k].step)
  {
    if n > 0 {
      CountedMembers(hydrate, rows, n - 1, x);
    }
  }

  lemma {:induction false} ShotsAreCounted(db: Db, id: string, hydrate: bool, rows: seq<StepView>, n: nat)
    requires IsStepRows(db, id, rows) && n <= |rows|
    ensures ShotsIn(hydrate, rows, n) == |CountedUpTo(hydrate, rows, n)|
  {
    if n > 0 {
      CountedMembers(hydrate, rows, n - 1, rows[n - 1].index);
      ShotsAreCounted(db, id, hydrate, rows, n - 1);
    }
  }

  lemma CountedAreAll(db: Db, id: string, hydrate: bool, rows: seq<StepView>)
    requires IsStepRows(db, id, rows)
    ensures CountedUpTo(hydrate, rows, |rows|) == CountedSteps(db, id, hydrate)
  {
    forall x: int ensures x in CountedUpTo(hydrate, rows, |rows|) <==> x in CountedSteps(db, id, hydrate) {
      CountedMembers(hydrate, rows, |rows|, x);
      if x in CountedSteps(db, id, hydrate) {
        var i := RowOf(db, id, rows, x);
      }
      if i :| 0 <= i < |rows| && rows[i].index == x && Counted(hydrate, rows[i].step) {
        assert x in StepIndices(db, id);
      }
    }
  }

  lemma {:induction false} UrlsInMembers(rows: seq<StepView>, n: nat, u: string)
    requires n <= |rows|
    ensures u in UrlsIn(rows, n) <==> exists k :: 0 <= k < n && rows[k].step.url == u && u != ""
  {
    if n > 0 {
      UrlsInMembers(rows, n - 1, u);
    }
  }

  lemma UrlsAreAll(db: Db, id: string, rows: seq<StepView>)
    requires IsStepRows(db, id, rows)
    ensures UrlsIn(rows, |rows|) == Urls(db, id)
  {
    forall u ensures u in UrlsIn(rows, |rows|) <==> u in Urls(db, id) {
      UrlsInMembers(rows, |rows|, u);
      if u in Urls(db, id) {
        var k :| k in StepIndices(db, id) && db.steps[(id, k)].url == u && u != "";
        var i := RowOf(db, id, rows, k);
      }
      if i :| 0 <= i < |rows| && rows[i].step.url == u && u != "" {
        assert rows[i].index in StepIndices(db, id);
      }
    }
  }

  method FoldSteps(key: Option<Fernet>, hydrate: bool, rows: seq<StepView>)
    returns (steps: seq<StepView>, shots: nat, urls: set<string>)
    ensures |steps| == |rows|
    ensures forall k :: 0 <= k < |rows| ==> steps[k] == StepView(rows[k].index, Shown(key, hydrate, rows[k].step))
    ensures shots == ShotsIn(hydrate, rows, |rows|) && urls == UrlsIn(rows, |rows|)
  {
    hide DecryptScreenshot;
    steps, shots, urls := [], 0, {};
    for i := 0 to |rows|
      invariant |steps| == i
      invariant forall k :: 0 <= k < i ==> steps[k] == StepView(rows[k].index, Shown(key, hydrate, rows[k].step))
      invariant shots == ShotsIn(hydrate, rows, i) && urls == UrlsIn(rows, i)
    {
      var step := rows[i].step;
      if Counted(hydrate, step) {
        shots := shots + 1;
      }
      if step.url != "" {
        urls := urls + {step.url};
      }
      steps := steps + [StepView(rows[i].index, Shown(key, hydrate, step))];
    }
  }

  lemma ViewIsRun(db: Db, key: Option<Fernet>, id: string, hydrate: bool, v: RunView, rows: seq<StepView>)
    requires id in db.runs && v.row == db.runs[id]
    requires IsStepRows(db, id, rows) && |v.steps| == |rows| == v.stepCount == |StepIndices(db, id)|
    requires forall i :: 0 <= i < |rows| ==> v.steps[i] == StepView(rows[i].index, Shown(key, hydrate, rows[i].step))
    requires v.screenshotSteps == |CountedSteps(db, id, hydrate)| && v.distinctUrls == |Urls(db, id)|
    requires v.firstTs == (if rows == [] then None else Some(rows[0].step.ts))
    requires v.lastTs == (if rows == [] then None else Some(rows[|rows| - 1].step.ts))
    ensures IsRunView(db, key, id, hydrate, v, rows)
  {
  }

  lemma Answered(db: Db, key: Option<Fernet>, id: string, hydrate: bool, tenant: string, v: RunView,
                 rows: seq<StepView>)
    requires id in db.runs && db.runs[id].tenant == tenant && IsRunView(db, key, id, hydrate, v, rows)
    ensures AnswersGetRun(db, key, id, hydrate, tenant, Some(v))
  {
    hide IsRunView;
  }

  lemma NothingAnswered(db: Db, key: Option<Fernet>, id: string, hydrate: bool, tenant: string)
    requires id !in db.runs || db.runs[id].tenant != tenant
    ensures AnswersGetRun(db, key, id, hydrate, tenant, None)
  {
  }

  method ReadRun(db: Db, key: Option<Fernet>, id: string, hydrate: bool, tenant: string) returns (r: Option<RunView>)
    ensures AnswersGetRun(db, key, id, hydrate, tenant, r)
  {
    hide *;
    if id !in db.runs || db.runs[id].tenant != tenant {
      NothingAnswered(db, key, id, hydrate, tenant);
      return None;
    }
    var rows := SelectSteps(db, id);
    var steps, shots, urls := FoldSteps(key, hydrate, rows);
    var n := |rows|;
    var view := RunView(db.runs[id], steps, n, shots,
                        if n == 0 then None else Some(rows[0].step.ts),
                        if n == 0 then None else Some(rows[n - 1].step.ts), |urls|);
    ShotsAreCounted(db, id, hydrate, rows, n);
    CountedAreAll(db, id, hydrate, rows);
    UrlsAreAll(db, id, rows);
    ViewIsRun(db, key, id, hydrate, view, rows);
    Answered(db, key, id, hydrate, tenant, view, rows);
    r := Some(view);
  }

  // ------------------------------------------------ how the reads relate

  /** list_runs and get_run report the same step count for the same database. */
  lemma StepCountsAgree(db: Db, key: Option<Fernet>, tenant: string, limit: int, rows: seq<RunSummary>, i: nat,
                        hydrate: bool, view: Option<RunView>)
    requires IsListing(db, tenant, limit, rows) && i < |rows|
    requires AnswersGetRun(db, key, rows[i].id, hydrate, tenant, view)
    ensures view.Some? && view.value.stepCount == rows[i].stepCount && view.value.row == rows[i].row
  {
    assert rows[i].id in Ids(rows);
    assert IsRow(db, rows[i]);
    hide IsStepRows, StepIndices, CountedSteps, Urls, Shown;
  }

  /** A tenant sees its own runs and no others: get_run answers exactly for those, and a listing holds
      the stored rows of some of them. A run is left out only of a full listing, and only when it
      started no later than all that are listed. */
  lemma TenantsAreSeparate(db: Db, key: Option<Fernet>, id: string, hydrate: bool, tenant: string,
                           r: Option<RunView>, limit: int, rows: seq<RunSummary>)
    requires AnswersGetRun(db, key, id, hydrate, tenant, r) && IsListing(db, tenant, limit, rows)
    ensures r.Some? <==> id in db.runs && db.runs[id].tenant == tenant
    ensures r.Some? ==> r.value.row == db.runs[id]
    ensures forall i :: 0 <= i < |rows| ==>
      rows[i].id in db.runs && rows[i].row == db.runs[rows[i].id] && rows[i].row.tenant == tenant
    ensures |rows| <= if limit < 1 then 1 else limit
    ensures id in db.runs && db.runs[id].tenant == tenant && (forall i :: 0 <= i < |rows| ==> rows[i].id != id) ==> (
      && |rows| == (if limit < 1 then 1 else limit)
      && forall i :: 0 <= i < |rows| ==> rows[i].row.startedAt >= db.runs[id].startedAt)
  {
    hide IsStepRows, StepIndices, CountedSteps, Urls, Shown;
    forall i | 0 <= i < |rows| ensures rows[i].id in TenantRuns(db, tenant) && IsRow(db, rows[i]) {
      assert rows[i].id in Ids(rows);
    }
    if id in TenantRuns(db, tenant) && forall i :: 0 <= i < |rows| ==> rows[i].id != id {
      assert id in TenantRuns(db, tenant) - Ids(rows);
    }
  }

  lemma HydratedCountsFewer(db: Db, id: string)
    ensures var a, b := CountedSteps(db, id, true), CountedSteps(db, id, false);
      a <= b && (a == b <==> forall k :: k in StepIndices(db, id) ==> db.steps[(id, k)].screenshot != Some(""))
  {
    var a, b := CountedSteps(db, id, true), CountedSteps(db, id, false);
    forall k: int ensures k in a ==> k in b {
    }
    if forall k :: k in StepIndices(db, id) ==> db.steps[(id, k)].screenshot != Some("") {
      forall k: int ensures k in a <==> k in b {
      }
      assert a == b;
    }
    if k :| k in StepIndices(db, id) && db.steps[(id, k)].screenshot == Some("") {
      assert k in b && k !in a;
    }
  }

  lemma ViewCounts(db: Db, key: Option<Fernet>, id: string, tenant: string, hydrate: bool, r: Option<RunView>)
    requires id in TenantRuns(db, tenant) && AnswersGetRun(db, key, id, hydrate, tenant, r)
    ensures r.Some? && r.value.screenshotSteps == |CountedSteps(db, id, hydrate)|
  {
    hide IsStepRows, StepIndices, CountedSteps, Urls, Shown;
  }

  /** The two forms of get_run agree on the number of screenshots exactly when no step of
      the run has an empty screenshot stored. */
  lemma ScreenshotCountsAgree(db: Db, key: Option<Fernet>, id: string, tenant: string,
                              hydrated: Option<RunView>, bare: Option<RunView>)
    requires id in TenantRuns(db, tenant)
    requires AnswersGetRun(db, key, id, true, tenant, hydrated) && AnswersGetRun(db, key, id, false, tenant, bare)
    ensures hydrated.Some? && bare.Some?
    ensures hydrated.value.screenshotSteps == bare.value.screenshotSteps
       <==> forall k :: k in StepIndices(db, id) ==> db.steps[(id, k)].screenshot != Some("")
  {
    hide *;
    ViewCounts(db, key, id, tenant, true, hydrated);
    ViewCounts(db, key, id, tenant, false, bare);
    HydratedCountsFewer(db, id);
    SubsetSize(CountedSteps(db, id, true), CountedSteps(db, id, false));
  }

  // ------------------------------------------------------------- the class

  class TaskReplayStore {
    var committed: Db
    var working: Db
    var pendingStepWrites: nat
    const key: Option<Fernet>
    ghost var log: seq<Statement>
    ghost var durable: nat

    ghost function Abs(): State
      reads this
    {
      State(committed, working, pendingStepWrites, log, durable)
    }

    ghost predicate Valid()
      reads this
    {
      Inv(Abs())
    }

    constructor (key: Option<Fernet>)
      ensures Valid() && Abs() == INITIAL
    {
      committed, working, pendingStepWrites := EMPTY, EMPTY, 0;
      log, durable := [], 0;
      this.key := key;
      new;
      RunInv([]);
    }

    /** A new store on the file of one that is gone. */
    constructor Reopen(lost: TaskReplayStore)
      requires lost.Valid()
      ensures Valid() && Abs() == Step(old(lost.Abs()), Crash) && key == lost.key
    {
      committed, working, pendingStepWrites := lost.committed, lost.committed, 0;
      log, durable := Durable(lost.Abs()), |Durable(lost.Abs())|;
      this.key := lost.key;
      new;
      StepKeepsInv(lost.Abs(), Crash);
    }

    method Commit()
      modifies this
      ensures Abs() == ReplayStore.Commit(old(Abs()))
    {
      committed := working;
      durable := |log|;
    }

    method StartRun(id: string, goal: string, startUrl: Option<string>, maxSteps: int, tenant: string, now: real)
      requires Valid()
      modifies this
      ensures Valid()
      ensures var row := RunRow(tenant, goal, startUrl, maxSteps, "running", now, None, None, None, None);
        Abs() == Step(old(Abs()), Start(id, row))
    {
      var row := RunRow(tenant, goal, startUrl, maxSteps, "running", now, None, None, None, None);
      StepKeepsInv(Abs(), Start(id, row));
      hide Replay;
      working := working.(runs := working.runs[id := row]);
      log := log + [InsertRun(id, row)];
      Commit();
      pendingStepWrites := 0;
    }

    method AddStep(id: string, index: int, now: real, action: string, reasoning: string, url: string,
                   screenshot: Option<string>, nonce: nat, extracted: string)
      requires Valid()
      modifies this
      ensures Valid()
      ensures var row := StepRow(now, action, reasoning, url, EncryptScreenshot(key, screenshot, nonce), extracted);
        Abs() == Step(old(Abs()), Op.AddStep(id, index, row))
    {
      var stored := EncryptScreenshot(key, screenshot, nonce);
      var row := StepRow(now, action, reasoning, url, stored, extracted);
      StepKeepsInv(Abs(), Op.AddStep(id, index, row));
      hide Replay;
      working := working.(steps := working.steps[(id, index) := row]);
      log := log + [InsertStep(id, index, row)];
      pendingStepWrites := pendingStepWrites + 1;
      if pendingStepWrites >= STEP_COMMIT_BATCH {
        Commit();
        pendingStepWrites := 0;
      }
    }

    method FinishRun(id: string, success: bool, finalUrl: string, error: Option<string>, extracted: string, now: real)
      requires Valid()
      modifies this
      ensures Valid()
      ensures Abs() == Step(old(Abs()), Finish(id, success, now, finalUrl, error, extracted))
      ensures committed == working
      ensures Finished(old(working), working, id, success, now, finalUrl, error, extracted)
    {
      StepKeepsInv(Abs(), Finish(id, success, now, finalUrl, error, extracted));
      FinishIsExact(Abs(), id, success, now, finalUrl, error, extracted);
      hide Replay, Finished;
      if id in working.runs {
        var row := working.runs[id].(status := if success then "completed" else "failed", completedAt := Some(now),
                                     finalUrl := Some(finalUrl), error := error, extracted := Some(extracted));
        working := working.(runs := working.runs[id := row]);
      }
      log := log + [Statement.FinishRun(id, success, now, finalUrl, error, extracted)];
      Commit();
      pendingStepWrites := 0;
    }

    method PruneOlderThan(retention: real, now: real) returns (removed: nat)
      requires Valid()
      modifies this
      ensures Valid()
      ensures Abs() == Step(old(Abs()), Prune(now - retention))
      ensures removed == |OlderThan(old(working), now - retention)|
    {
      var cutoff := now - retention;
      StepKeepsInv(Abs(), Prune(cutoff));
      hide Replay;
      var ids := OlderThan(working, cutoff);
      if ids == {} {
        return 0;
      }
      working := working.(steps := map k | k in working.steps && k.0 !in ids :: working.steps[k]);
      working := working.(runs := map id | id in working.runs && id !in ids :: working.runs[id]);
      log := log + [DeleteOlder(cutoff)];
      Commit();
      removed := |ids|;
    }

    method FlushForReader()
      requires Valid()
      modifies this
      ensures Valid() && Abs() == Step(old(Abs()), Flush)
      ensures log == old(log) && committed == Replay(log)
    {
      StepKeepsInv(Abs(), Flush);
      FlushCommits(Abs());
      assert log[..|log|] == log;
      hide Replay;
      if pendingStepWrites > 0 {
        Commit();
        pendingStepWrites := 0;
      }
    }

    /** list_runs answers from the plain map of all writes so far. */
    method ListRuns(limit: int, tenant: string) returns (rows: seq<RunSummary>)
      requires Valid()
      modifies this
      ensures Valid() && Abs() == Step(old(Abs()), Flush)
      ensures IsListing(Replay(old(log)), tenant, limit, rows)
    {
      FlushForReader();
      rows := SelectRuns(committed, tenant, limit);
    }

    /** get_run answers from the plain map of all writes so far. */
    method GetRun(id: string, hydrate: bool, tenant: string) returns (r: Option<RunView>)
      requires Valid()
      modifies this
      ensures Valid() && Abs() == Step(old(Abs()), Flush)
      ensures AnswersGetRun(Replay(old(log)), key, id, hydrate, tenant, r)
    {
      FlushForReader();
      r := ReadRun(committed, key, id, hydrate, tenant);
    }

    /** One step's screenshot, or None when the step is missing or another tenant's. */
    method GetRunStepScreenshot(id: string, index: int, tenant: string) returns (r: Option<string>)
      requires Valid()
      modifies this
      ensures Valid() && Abs() == Step(old(Abs()), Flush)
      ensures var db := Replay(old(log));
        r == if (id, index) in db.steps && id in db.runs && db.runs[id].tenant == tenant
             then DecryptScreenshot(key, db.steps[(id, index)].screenshot) else None
    {
      FlushForReader();
      if (id, index) in committed.steps && id in committed.runs && committed.runs[id].tenant == tenant {
        r := DecryptScreenshot(key, committed.steps[(id, index)].screenshot);
      } else {
        r := None;
      }
    }
  }
}
