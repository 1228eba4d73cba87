/**
 * The SQLite adapter of database/sqlite.wrapper.js: a lazily opened,
 * shared database handle; `prepare().run` and the pool connection's
 * `query`, which rewrites PostgreSQL-style `$n` placeholders into the
 * `?` placeholders of SQLite and answers SELECT statements with rows and
 * every other statement with the insert id and the number of changed rows.
 * The SQLite engine itself (statement execution) is the pair of opaque
 * functions `all` and `run`.
 */
module SqlWrapper {
  import opened Wrappers
  import opened Text

  const DbPath := "data/medical_orders.db"

  // ---------- placeholder rewrite ----------

  /** A `$` followed by a digit starts at `i`. */
  predicate PlaceholderAt(s: string, i: int) {
    0 <= i && i + 1 < |s| && s[i] == '$' && IsDigit(s[i + 1])
  }

  ghost predicate NoPlaceholder(s: string) {
    forall i :: !PlaceholderAt(s, i)
  }

  /**
   * `text.replace(/\$(\d+)/g, '?')`: every `$` followed by a run of
   * digits, the whole run, becomes one `?`; the rest is copied.
   */
  function Rewrite(s: string): (r: string)
    ensures NoPlaceholder(r)
    ensures |r| <= |s|
    ensures |r| > 0 && IsDigit(r[0]) ==> |s| > 0 && IsDigit(s[0])
    decreases |s|
  {
    if s == [] then []
    else if PlaceholderAt(s, 0) then
      var rest := Rewrite(s[DigitRunEnd(s, 1)..]);
      assert forall i :: PlaceholderAt("?" + rest, i) ==> PlaceholderAt(rest, i - 1);
      "?" + rest
    else
      var rest := Rewrite(s[1..]);
      assert forall i :: 1 <= i && PlaceholderAt([s[0]] + rest, i) ==> PlaceholderAt(rest, i - 1);
      [s[0]] + rest
  }

  /** Occurrences of `c` in `s`. */
  function Count(s: string, c: char): nat {
    if s == [] then 0 else (if s[0] == c then 1 else 0) + Count(s[1..], c)
  }

  /** Positions where a placeholder starts. */
  function Placeholders(s: string): nat {
    if s == [] then 0 else (if PlaceholderAt(s, 0) then 1 else 0) + Placeholders(s[1..])
  }

  /** A run of digits holds no `?` and starts no placeholder. */
  lemma {:induction false} SkipDigits(s: string, i: nat, j: nat)
    requires i <= j <= |s|
    requires forall q :: i <= q < j ==> IsDigit(s[q])
    ensures Count(s[i..], '?') == Count(s[j..], '?')
    ensures Placeholders(s[i..]) == Placeholders(s[j..])
    decreases j - i
  {
    if i < j {
      assert s[i..][1..] == s[i + 1..];
      SkipDigits(s, i + 1, j);
    }
  }

  /** Each placeholder becomes exactly one `?`, whatever its index: `$2` used k times gives k `?`s. */
  lemma {:induction false} QuestionMarks(s: string)
    ensures Count(Rewrite(s), '?') == Count(s, '?') + Placeholders(s)
    decreases |s|
  {
    if s == [] {
    } else if PlaceholderAt(s, 0) {
      var j := DigitRunEnd(s, 1);
      QuestionMarks(s[j..]);
      SkipDigits(s, 1, j);
      assert s[1..] == s[1..][..];
      assert ("?" + Rewrite(s[j..]))[1..] == Rewrite(s[j..]);
    } else {
      QuestionMarks(s[1..]);
      assert ([s[0]] + Rewrite(s[1..]))[1..] == Rewrite(s[1..]);
    }
  }

  /** The rewrite leaves a text alone exactly when it has no placeholder. */
  lemma {:induction false} RewriteIdentity(s: string)
    ensures Rewrite(s) == s <==> NoPlaceholder(s)
    decreases |s|
  {
    if s != [] && NoPlaceholder(s) {
      assert !PlaceholderAt(s, 0);
      assert forall i :: PlaceholderAt(s[1..], i) ==> PlaceholderAt(s, i + 1);
      RewriteIdentity(s[1..]);
    }
  }

  lemma RewriteExample()
    ensures Rewrite("$2 $2") == "? ?"
    ensures Rewrite("$10,$1") == "?,?"
  {
    assert DigitRunEnd("$2 $2", 1) == 2;
    assert "$2 $2"[2..] == " $2";
    assert " $2"[1..] == "$2";
    assert DigitRunEnd("$2", 1) == 2;
    assert DigitRunEnd("$10,$1", 1) == 3;
    assert "$10,$1"[3..] == ",$1";
    assert ",$1"[1..] == "$1";
    assert DigitRunEnd("$1", 1) == 2;
  }

  // ---------- statement dispatch ----------

  /** `sql.trim().toUpperCase().startsWith('SELECT')`. */
  predicate IsSelect(sql: string) {
    StartsWith(ToUpper(Trim(sql)), "SELECT")
  }

  type Row = map<string, string>

  /** What better-sqlite3's `run` reports. */
  datatype RunInfo = RunInfo(lastInsertRowid: int, changes: nat)

  datatype QueryResult = Rows(rows: seq<Row>) | Changes(insertId: int, rowsAffected: nat)

  /** `prepare(text).run(params)`: the engine's report under the driver-independent names. */
  function PreparedRun(text: string, run: string -> RunInfo): (r: QueryResult)
    ensures r.Changes? && r.insertId == run(text).lastInsertRowid && r.rowsAffected == run(text).changes
  {
    Changes(run(text).lastInsertRowid, run(text).changes)
  }

  /**
   * The pool connection's `query`: the engine sees the rewritten text;
   * a SELECT answers `{rows}`, anything else `{insertId, rowsAffected}`.
   */
  function Query(text: string, all: string -> seq<Row>, run: string -> RunInfo): (r: QueryResult)
    ensures r.Rows? <==> IsSelect(Rewrite(text))
    ensures r.Rows? ==> r.rows == all(Rewrite(text))
    ensures r.Changes? ==> r == PreparedRun(Rewrite(text), run)
  {
    var sql := Rewrite(text);
    if IsSelect(sql) then Rows(all(sql)) else PreparedRun(sql, run)
  }

  /** Leading whitespace and letter case do not hide a SELECT. */
  lemma LeadingSelect(s: string, k: nat)
    requires k + 6 <= |s|
    requires forall i :: 0 <= i < k ==> IsSpace(s[i])
    requires ToUpper(s[k..k + 6]) == "SELECT"
    ensures IsSelect(s)
  {
    assert ToUpperChar(s[k]) == 'S' && ToUpperChar(s[k + 5]) == 'T';
    assert !IsSpace(s[k]) && !IsSpace(s[k + 5]);
    var t := TrimStart(s);
    assert |s| - |t| == k;
    var r := TrimEnd(t);
    assert t[5] == s[k + 5];
    assert |r| >= 6;
    assert r[..6] == s[k..k + 6];
    assert ToUpper(r)[..6] == ToUpper(r[..6]);
  }

  lemma SelectExample()
    ensures IsSelect("  select * from stock")
  {
    LeadingSelect("  select * from stock", 2);
  }

  // ---------- the shared handle ----------

  /** An open database: which opening produced it, its file and its pragmas. */
  datatype Handle = Handle(serial: nat, path: string, journalMode: string, foreignKeys: bool)

  /** The module-level `database` variable and the number of times a database was opened. */
  class Connection {
    var database: Option<Handle>
    var opens: nat

    predicate Valid()
      reads this
    {
      opens == (if database.Some? then 1 else 0)
    }

    constructor ()
      ensures Valid() && database.None?
    {
      database := None;
      opens := 0;
    }

    /** `getDb`: the first call opens the file (WAL journal, foreign keys on); later calls return that same handle. */
    method GetDb() returns (h: Handle)
      requires Valid()
      modifies this
      ensures Valid()
      ensures database == Some(h)
      ensures old(database).Some? ==> h == old(database).value && opens == old(opens)
      ensures old(database).None? ==> h == Handle(1, DbPath, "WAL", true) && opens == 1
    {
      if database.None? {
        opens := opens + 1;
        database := Some(Handle(opens, DbPath, "WAL", true));
      }
      h := database.value;
    }
  }
}
