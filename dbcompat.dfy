/**
 * The database-compatibility layer (db_utils_v2.py): the SQL rewriting that lets
 * SQLite-style statements run on PostgreSQL, the PostgreSQL DSN candidates, and the
 * cursor wrapper that can serve rows from an in-memory override.
 */
module DbCompat {
  import opened Wrappers
  import opened PyStr

  // ---------------------------------------------------------------------
  // `?` placeholders to `%s`, outside quoted literals

  /** Whether the scanner is inside a '...' or a "..." literal. */
  datatype Quotes = Quotes(inSingle: bool, inDouble: bool)

  const Outside := Quotes(false, false)

  /** A quote character toggles its own kind of literal unless the other kind is open. */
  function QuoteStep(c: char, q: Quotes): Quotes {
    if c == '\'' && !q.inDouble then q.(inSingle := !q.inSingle)
    else if c == '"' && !q.inSingle then q.(inDouble := !q.inDouble)
    else q
  }

  predicate IsPlaceholder(c: char, q: Quotes) { c == '?' && !q.inSingle && !q.inDouble }

  /** The text emitted for one character. */
  function Emit(c: char, q: Quotes): string {
    if IsPlaceholder(c, q) then "%s" else [c]
  }

  /** The converted text of `s` when scanning starts in state `q`. */
  function Pyformat(s: string, q: Quotes): string
    decreases |s|
  {
    if s == [] then [] else Emit(s[0], q) + Pyformat(s[1..], QuoteStep(s[0], q))
  }

  /** The quote state after scanning `s` from `q`. */
  function QuotesAfter(s: string, q: Quotes): Quotes
    decreases |s|
  {
    if s == [] then q else QuotesAfter(s[1..], QuoteStep(s[0], q))
  }

  /** How many `?` of `s` stand outside every literal. */
  function Placeholders(s: string, q: Quotes): nat
    decreases |s|
  {
    if s == [] then 0
    else (if IsPlaceholder(s[0], q) then 1 else 0) + Placeholders(s[1..], QuoteStep(s[0], q))
  }

  /** `_qmark_to_pyformat`: the character loop with its two quote flags. */
  method QmarkToPyformat(sql: string) returns (out: string)
    ensures out == Pyformat(sql, Outside)
  {
    out := [];
    var inSingle, inDouble := false, false;
    var i := 0;
    while i < |sql|
      invariant 0 <= i <= |sql|
      invariant out == Pyformat(sql[..i], Outside)
      invariant Quotes(inSingle, inDouble) == QuotesAfter(sql[..i], Outside)
    {
      var ch := sql[i];
      PyformatAppend(sql[..i], [ch], Outside);
      assert sql[..i] + [ch] == sql[..i + 1];
      if ch == '\'' && !inDouble {
        inSingle := !inSingle;
        out := out + [ch];
      } else if ch == '"' && !inSingle {
        inDouble := !inDouble;
        out := out + [ch];
      } else if ch == '?' && !inSingle && !inDouble {
        out := out + "%s";
      } else {
        out := out + [ch];
      }
      i := i + 1;
    }
    assert sql[..|sql|] == sql;
  }

  /** Each placeholder grows the text by one character; nothing else changes length. */
  lemma {:induction false} PyformatLength(s: string, q: Quotes)
    ensures |Pyformat(s, q)| == |s| + Placeholders(s, q)
    decreases |s|
  {
    if s != [] { PyformatLength(s[1..], QuoteStep(s[0], q)); }
  }

  /** A statement without placeholders outside literals is left as it is. */
  lemma {:induction false} PyformatWithoutPlaceholders(s: string, q: Quotes)
    requires Placeholders(s, q) == 0
    ensures Pyformat(s, q) == s
    decreases |s|
  {
    if s != [] {
      PyformatWithoutPlaceholders(s[1..], QuoteStep(s[0], q));
      assert [s[0]] + s[1..] == s;
    }
  }

  /** Conversion is compositional: the second part is scanned in the state the first left. */
  lemma {:induction false} PyformatAppend(a: string, b: string, q: Quotes)
    ensures Pyformat(a + b, q) == Pyformat(a, q) + Pyformat(b, QuotesAfter(a, q))
    ensures QuotesAfter(a + b, q) == QuotesAfter(b, QuotesAfter(a, q))
    decreases |a|
  {
    if a == [] {
      assert a + b == b;
    } else {
      assert (a + b)[1..] == a[1..] + b;
      PyformatAppend(a[1..], b, QuoteStep(a[0], q));
    }
  }

  /** Inside a literal whose closing quote has not come yet, characters are copied. */
  lemma {:induction false} PyformatInsideSingle(x: string)
    requires forall i :: 0 <= i < |x| ==> x[i] != '\''
    ensures Pyformat(x, Quotes(true, false)) == x
    ensures QuotesAfter(x, Quotes(true, false)) == Quotes(true, false)
    decreases |x|
  {
    if x != [] {
      PyformatInsideSingle(x[1..]);
      assert [x[0]] + x[1..] == x;
    }
  }

  /** Inside an open double-quoted literal, characters up to the closing `"`
      are copied; a `'` there opens no single-quoted literal. */
  lemma {:induction false} PyformatInsideDouble(x: string)
    requires forall i :: 0 <= i < |x| ==> x[i] != '"'
    ensures Pyformat(x, Quotes(false, true)) == x
    ensures QuotesAfter(x, Quotes(false, true)) == Quotes(false, true)
    decreases |x|
  {
    if x != [] {
      PyformatInsideDouble(x[1..]);
      assert [x[0]] + x[1..] == x;
    }
  }

  /** A `'` inside a `"..."` literal leaves a following `?` unconverted, and
      a `"` inside a `'...'` literal does the same. */
  lemma QuoteInsideOtherQuote()
    ensures Pyformat("\"'?\"", Outside) == "\"'?\""
    ensures Pyformat("'\"?'", Outside) == "'\"?'"
  {
    PyformatInsideDouble("'?");
    PyformatAppend("\"", "'?", Outside);
    PyformatAppend("\"'?", "\"", Outside);
    PyformatInsideSingle("\"?");
    PyformatAppend("'", "\"?", Outside);
    PyformatAppend("'\"?", "'", Outside);
  }

  /** A `'...'` literal is copied unchanged, `?` included, and scanning resumes outside. */
  lemma QuotedLiteralUnchanged(x: string)
    requires forall i :: 0 <= i < |x| ==> x[i] != '\''
    ensures Pyformat("'" + x + "'", Outside) == "'" + x + "'"
    ensures QuotesAfter("'" + x + "'", Outside) == Outside
  {
    PyformatInsideSingle(x);
    PyformatAppend("'", x, Outside);
    PyformatAppend("'" + x, "'", Outside);
  }

  /** Every `?` becomes `%s` (used for statements without quote characters). */
  function ReplaceMarks(s: string): string
    decreases |s|
  {
    if s == [] then [] else (if s[0] == '?' then "%s" else [s[0]]) + ReplaceMarks(s[1..])
  }

  /** Without quote characters every `?` is a placeholder. */
  lemma {:induction false} PyformatUnquoted(s: string)
    requires forall i :: 0 <= i < |s| ==> s[i] != '\'' && s[i] != '"'
    ensures Pyformat(s, Outside) == ReplaceMarks(s)
    decreases |s|
  {
    if s != [] { PyformatUnquoted(s[1..]); }
  }

  // ---------------------------------------------------------------------
  // INSERT OR IGNORE -> INSERT ... ON CONFLICT DO NOTHING

  /** The end of the match of `^\s*INSERT\s+OR\s+IGNORE\s+INTO\s+` (case-insensitive), if any. */
  function InsertOrIgnoreEnd(s: string): Option<nat> {
    var a := SkipSpaces(s, 0);
    if !WordAt(s, a, "INSERT") then None
    else
      var b := SkipSpaces(s, a + 6);
      if b == a + 6 || !WordAt(s, b, "OR") then None
      else
        var c := SkipSpaces(s, b + 2);
        if c == b + 2 || !WordAt(s, c, "IGNORE") then None
        else
          var d := SkipSpaces(s, c + 6);
          if d == c + 6 || !WordAt(s, d, "INTO") then None
          else
            var e := SkipSpaces(s, d + 4);
            if e == d + 4 then None else Some(e)
  }

  const ConflictClause := " ON CONFLICT DO NOTHING;"

  /** `_rewrite_insert_or_ignore`. */
  function RewriteInsertOrIgnore(sql: string): string {
    match InsertOrIgnoreEnd(sql)
    case None => sql
    case Some(e) =>
      var stripped := RStrip("INSERT INTO " + sql[e..]);
      var body := if EndsWith(stripped, ";") then stripped[..|stripped| - 1] else stripped;
      body + ConflictClause
  }

  /** A rewritten statement starts with `INSERT INTO` and ends with the conflict clause;
      any other statement is returned unchanged. */
  lemma RewriteInsertOrIgnoreShape(sql: string)
    ensures InsertOrIgnoreEnd(sql).None? ==> RewriteInsertOrIgnore(sql) == sql
    ensures InsertOrIgnoreEnd(sql).Some? ==>
      StartsWith(RewriteInsertOrIgnore(sql), "INSERT INTO") && EndsWith(RewriteInsertOrIgnore(sql), ConflictClause)
  {
    if InsertOrIgnoreEnd(sql).Some? {
      var e := InsertOrIgnoreEnd(sql).value;
      var full := "INSERT INTO " + sql[e..];
      var stripped := RStrip(full);
      assert full[10] == 'O' && !IsSpace(full[10]);
      assert |stripped| >= 11;
      assert stripped[..11] == full[..11] == "INSERT INTO";
      var body := if EndsWith(stripped, ";") then stripped[..|stripped| - 1] else stripped;
      assert |stripped| == 11 ==> stripped[10] == 'O';
      assert |body| >= 11 && body[..11] == "INSERT INTO";
      var r := body + ConflictClause;
      assert r[..11] == body[..11];
      assert r[|r| - |ConflictClause|..] == ConflictClause;
    }
  }

  /** A statement that starts `INSERT I` is not an `INSERT OR IGNORE`. */
  lemma NotInsertOrIgnore(r: string)
    requires |r| >= 8 && r[..8] == "INSERT I"
    ensures InsertOrIgnoreEnd(r) == None
  {
    assert r[0] == 'I' && r[6] == ' ' && r[7] == 'I';
    assert SkipSpaces(r, 0) == 0;
    assert SkipSpaces(r, 6) == 7;
    assert "OR"[0] == 'O';
    assert !CiEq(r[7], 'O');
    assert !WordAt(r, 7, "OR");
  }

  /** Rewriting twice is rewriting once: the output no longer reads `INSERT OR`. */
  lemma RewriteInsertOrIgnoreIdempotent(sql: string)
    ensures RewriteInsertOrIgnore(RewriteInsertOrIgnore(sql)) == RewriteInsertOrIgnore(sql)
  {
    RewriteInsertOrIgnoreShape(sql);
    var r := RewriteInsertOrIgnore(sql);
    if InsertOrIgnoreEnd(sql).Some? {
      assert r[..8] == r[..11][..8];
      NotInsertOrIgnore(r);
    }
  }

  // ---------------------------------------------------------------------
  // d.rowid -> d.par_id

  /** `s` starts with `d.rowid` (case-insensitively) followed by a word boundary. */
  predicate RowidAhead(s: string) {
    |s| >= 7 && CiEq(s[0], 'D') && s[1] == '.' && CiEq(s[2], 'R') && CiEq(s[3], 'O')
    && CiEq(s[4], 'W') && CiEq(s[5], 'I') && CiEq(s[6], 'D') && (|s| == 7 || !IsWordChar(s[7]))
  }

  /** Word boundary before the current position, given the previous character. */
  predicate BoundaryAfter(prev: Option<char>) { prev.None? || !IsWordChar(prev.value) }

  /** `re.sub(r"\bd\.rowid\b", "d.par_id", s, flags=re.IGNORECASE)`, scanning left to right. */
  function RowidToParId(s: string, prev: Option<char>): string
    decreases |s|
  {
    if s == [] then []
    else if BoundaryAfter(prev) && RowidAhead(s) then "d.par_id" + RowidToParId(s[7..], Some(s[6]))
    else [s[0]] + RowidToParId(s[1..], Some(s[0]))
  }

  /** A statement with no `d.rowid` reference is unchanged. */
  lemma {:induction false} RowidToParIdWithout(s: string, prev: Option<char>)
    requires forall k :: 0 <= k < |s| ==> !RowidAhead(s[k..])
    ensures RowidToParId(s, prev) == s
    decreases |s|
  {
    if s != [] {
      assert !RowidAhead(s[0..]) by { assert s[0..] == s; }
      forall k | 0 <= k < |s| - 1 ensures !RowidAhead(s[1..][k..]) {
        assert s[1..][k..] == s[k + 1..];
      }
      RowidToParIdWithout(s[1..], Some(s[0]));
      assert [s[0]] + s[1..] == s;
    }
  }

  /** `CompatConnection._rewrite_sql`: only a PostgreSQL connection rewrites. */
  function RewriteSql(backend: string, sql: string): string {
    if backend != "postgres" then sql
    else Pyformat(RowidToParId(RewriteInsertOrIgnore(sql), None), Outside)
  }

  /** On PostgreSQL a plain statement keeps its text except that each `?` becomes `%s`;
      on any other backend nothing changes. */
  lemma RewriteSqlPlain(backend: string, sql: string)
    requires InsertOrIgnoreEnd(sql).None?
    requires forall k :: 0 <= k < |sql| ==> !RowidAhead(sql[k..])
    requires forall i :: 0 <= i < |sql| ==> sql[i] != '\'' && sql[i] != '"'
    ensures RewriteSql(backend, sql) == if backend == "postgres" then ReplaceMarks(sql) else sql
  {
    if backend == "postgres" {
      RowidToParIdWithout(sql, None);
      PyformatUnquoted(sql);
    }
  }

  // ---------------------------------------------------------------------
  // PostgreSQL DSNs

  const TimeoutKey := "connect_timeout="

  /** `_normalize_pg_dsn`. */
  function NormalizePgDsn(dsn: string): string {
    var d := Strip(dsn);
    if d == "" then ""
    else if Contains(d, TimeoutKey) then d
    else d + " connect_timeout=2"
  }

  lemma ContainsInPrefix(a: string, b: string, needle: string)
    requires Contains(a, needle)
    ensures Contains(a + b, needle)
  {
    var i :| 0 <= i <= |a| - |needle| && Sub(a, i, |needle|) == needle;
    assert Sub(a + b, i, |needle|) == needle;
  }

  /** A DSN as `_normalize_pg_dsn` leaves it. */
  predicate Normalized(d: string) { d != "" && Contains(d, TimeoutKey) && NormalizePgDsn(d) == d }

  lemma NormalizeAppendsTimeout(d: string)
    requires d != "" && !IsSpace(d[0]) && !IsSpace(d[|d| - 1])
    requires !Contains(d, TimeoutKey)
    ensures Normalized(d + " connect_timeout=2")
  {
    var suffix := " connect_timeout=2";
    var n := d + suffix;
    assert n[|d| + 1..|d| + 17] == suffix[1..17] == TimeoutKey;
    assert Sub(n, |d| + 1, |TimeoutKey|) == TimeoutKey;
    assert n[0] == d[0] && n[|n| - 1] == '2';
    StripOfStripped(n);
  }

  /** A normalised DSN is blank or carries a connect timeout, and normalising again changes nothing. */
  lemma NormalizePgDsnProperties(dsn: string)
    ensures NormalizePgDsn(dsn) == "" <==> IsBlank(dsn)
    ensures NormalizePgDsn(dsn) != "" ==> Normalized(NormalizePgDsn(dsn))
  {
    StripEmptyIffBlank(dsn);
    var d := Strip(dsn);
    if d != "" {
      if Contains(d, TimeoutKey) {
        StripOfStripped(d);
      } else {
        NormalizeAppendsTimeout(d);
      }
    }
  }

  /** The libpq keyword/value DSN with host, port, database and user. */
  function DsnWithoutPassword(host: string, port: string, dbname: string, user: string): (r: string)
    ensures !IsBlank(r)
  {
    var head := "host=";
    assert head[0] == 'h' && !IsSpace(head[0]);
    var r := head + host + " port=" + port + " dbname=" + dbname + " user=" + user;
    assert r[0] == head[0];
    r
  }

  /** The same DSN followed by a password. */
  function Dsn(host: string, port: string, dbname: string, user: string, password: string): (r: string)
    ensures !IsBlank(r)
  {
    var r := DsnWithoutPassword(host, port, dbname, user) + " password=" + password;
    assert r[..|DsnWithoutPassword(host, port, dbname, user)|] == DsnWithoutPassword(host, port, dbname, user);
    r
  }

  /** `_evs_pg_dsn_from_env`: the DSN assembled from the `EVS_PG_*` variables
      (each given as read, "" when unset), defaults filling the blank ones. */
  function EvsPgDsnFromEnv(host: string, port: string, dbname: string, user: string, password: string): string {
    DsnFromStripped(Strip(host), Strip(port), Strip(dbname), Strip(user), Strip(password))
  }

  function DsnFromStripped(h: string, p: string, d: string, u: string, pw: string): string {
    if h == "" && p == "" && d == "" && u == "" && pw == "" then ""
    else
      NormalizePgDsn(Dsn(if h == "" then "localhost" else h, if p == "" then "5432" else p,
        if d == "" then "evs_conciliador" else d, if u == "" then "evs" else u, if pw == "" then "evs123" else pw))
  }

  /** Once stripped, the variables yield a DSN exactly when one is non-empty, and it is normalised. */
  lemma DsnFromStrippedProperties(h: string, p: string, d: string, u: string, pw: string)
    ensures var r := DsnFromStripped(h, p, d, u, pw);
      (r == "" <==> h == "" && p == "" && d == "" && u == "" && pw == "") && (r != "" ==> Normalized(r))
  {
    if !(h == "" && p == "" && d == "" && u == "" && pw == "") {
      NormalizePgDsnProperties(Dsn(if h == "" then "localhost" else h, if p == "" then "5432" else p,
        if d == "" then "evs_conciliador" else d, if u == "" then "evs" else u, if pw == "" then "evs123" else pw));
    }
  }

  /** The environment yields a DSN exactly when one of the variables is non-blank, and it is normalised. */
  lemma EvsPgDsnFromEnvProperties(host: string, port: string, dbname: string, user: string, password: string)
    ensures var r := EvsPgDsnFromEnv(host, port, dbname, user, password);
      (r == "" <==> IsBlank(host) && IsBlank(port) && IsBlank(dbname) && IsBlank(user) && IsBlank(password))
      && (r != "" ==> Normalized(r))
  {
    StripEmptyIffBlank(host);
    StripEmptyIffBlank(port);
    StripEmptyIffBlank(dbname);
    StripEmptyIffBlank(user);
    StripEmptyIffBlank(password);
    DsnFromStrippedProperties(Strip(host), Strip(port), Strip(dbname), Strip(user), Strip(password));
  }

  /** The fixed defaults, plus one for the operating-system user when `USER` is set. */
  function DefaultDsns(osUser: string): (r: seq<string>)
    ensures forall d :: d in r ==> !IsBlank(d)
  {
    [Dsn("localhost", "5432", "evs_conciliador", "evs", "evs123"),
     Dsn("localhost", "5432", "evs_conciliador", "postgres", "postgres")]
    + (if Strip(osUser) != "" then [DsnWithoutPassword("localhost", "5432", "evs_conciliador", Strip(osUser))] else [])
  }

  predicate NoDuplicates(l: seq<string>) { forall i, j :: 0 <= i < j < |l| ==> l[i] != l[j] }

  /** Each DSN of `l` normalised. */
  function NormalizeAll(l: seq<string>): (r: seq<string>)
    ensures |r| == |l| && forall i :: 0 <= i < |l| ==> r[i] == NormalizePgDsn(l[i])
  {
    seq(|l|, i requires 0 <= i < |l| => NormalizePgDsn(l[i]))
  }

  /** Appends, in order, each element of `ds` that the list does not hold yet. */
  function AppendAbsent(l: seq<string>, ds: seq<string>): seq<string>
    decreases |ds|
  {
    if ds == [] then l else AppendAbsent(if ds[0] in l then l else l + [ds[0]], ds[1..])
  }

  /** The entries placed before the defaults: the explicit DSN, then the environment DSN
      unless it is empty or already listed. */
  function Leading(pg: string, env: string): (r: seq<string>)
    ensures |r| <= 2
    ensures pg != "" ==> |r| > 0 && r[0] == pg
    ensures env != "" && env != pg ==> |r| > 0 && r[|r| - 1] == env
    ensures forall d :: d in r <==> (d == pg && pg != "") || (d == env && env != "")
  {
    (if pg != "" then [pg] else []) + (if env != "" && env != pg then [env] else [])
  }

  /** Appending the absent elements keeps the list as a prefix, adds no
      duplicate, and adds exactly the elements of `ds` that were missing. */
  lemma {:induction false} AppendAbsentSpec(l: seq<string>, ds: seq<string>)
    requires NoDuplicates(l)
    ensures var r := AppendAbsent(l, ds);
      && NoDuplicates(r)
      && |l| <= |r| <= |l| + |ds| && r[..|l|] == l
      && (forall d :: d in l ==> d in r)
      && (forall d :: d in ds ==> d in r)
      && (forall d :: d in r ==> d in l || d in ds)
    decreases |ds|
  {
    if ds != [] {
      var next := if ds[0] in l then l else l + [ds[0]];
      assert NoDuplicates(next);
      AppendAbsentSpec(next, ds[1..]);
      assert next[..|l|] == l;
      var r := AppendAbsent(l, ds);
      assert r[..|l|] == r[..|next|][..|l|];
      assert forall d :: d in ds ==> d == ds[0] || d in ds[1..];
    }
  }

  /** The loop of `_pg_candidates` over the defaults: each is normalised and appended unless listed. */
  method AppendDefaults(start: seq<string>, defaults: seq<string>) returns (dsns: seq<string>)
    requires NoDuplicates(start)
    ensures NoDuplicates(dsns)
    ensures |start| <= |dsns| <= |start| + |defaults| && dsns[..|start|] == start
    ensures forall d :: d in start ==> d in dsns
    ensures forall d :: d in NormalizeAll(defaults) ==> d in dsns
    ensures forall d :: d in dsns ==> d in start || d in NormalizeAll(defaults)
    ensures dsns == AppendAbsent(start, NormalizeAll(defaults))
  {
    ghost var norm := NormalizeAll(defaults);
    dsns := start;
    var i := 0;
    while i < |defaults|
      invariant 0 <= i <= |defaults|
      invariant AppendAbsent(dsns, norm[i..]) == AppendAbsent(start, norm)
    {
      var nd := NormalizePgDsn(defaults[i]);
      assert nd == norm[i];
      assert norm[i..][1..] == norm[i + 1..];
      if nd !in dsns {
        dsns := dsns + [nd];
      }
      i := i + 1;
    }
    assert norm[i..] == [];
    AppendAbsentSpec(start, norm);
  }

  /** The body of `_pg_candidates` once the explicit DSN `pg`, the environment DSN `env`
      and the default list are known. */
  method CollectCandidates(pg: string, env: string, defaults: seq<string>) returns (dsns: seq<string>)
    ensures NoDuplicates(dsns)
    ensures forall d :: d in dsns ==> d == pg || d == env || d in NormalizeAll(defaults)
    ensures pg != "" ==> |dsns| > 0 && dsns[0] == pg
    ensures env != "" ==> env in dsns
    ensures forall d :: d in NormalizeAll(defaults) ==> d in dsns
    ensures "" in dsns ==> "" in NormalizeAll(defaults)
    ensures |dsns| <= 2 + |defaults|
    ensures |Leading(pg, env)| <= |dsns| && dsns[..|Leading(pg, env)|] == Leading(pg, env)
    ensures env != "" && env != pg ==> dsns[if pg != "" then 1 else 0] == env
    ensures forall i :: |Leading(pg, env)| <= i < |dsns| ==> dsns[i] in NormalizeAll(defaults)
    ensures dsns == AppendAbsent(Leading(pg, env), NormalizeAll(defaults))
  {
    var first: seq<string> := [];
    if pg != "" {
      first := first + [pg];
    }
    if env != "" && env !in first {
      first := first + [env];
    }
    dsns := AppendDefaults(first, defaults);
    assert first == Leading(pg, env);
    assert pg != "" ==> dsns[..|first|][0] == pg;
    assert env != "" && env != pg ==> dsns[..|first|][|first| - 1] == env;
  }

  /** `_pg_candidates`: the explicit `PG_DSN`, then the `EVS_PG_*` DSN, then the defaults,
      each normalised, non-empty and listed once. */
  method PgCandidates(pgDsn: string, host: string, port: string, dbname: string, user: string, password: string, osUser: string)
    returns (dsns: seq<string>)
    ensures NoDuplicates(dsns)
    ensures forall d :: d in dsns ==>
      d != "" && (d == NormalizePgDsn(pgDsn) || d == EvsPgDsnFromEnv(host, port, dbname, user, password) || d in NormalizeAll(DefaultDsns(osUser)))
    ensures NormalizePgDsn(pgDsn) != "" ==> |dsns| > 0 && dsns[0] == NormalizePgDsn(pgDsn)
    ensures EvsPgDsnFromEnv(host, port, dbname, user, password) != "" ==> EvsPgDsnFromEnv(host, port, dbname, user, password) in dsns
    ensures forall d :: d in NormalizeAll(DefaultDsns(osUser)) ==> d in dsns
    ensures |dsns| <= 2 + |DefaultDsns(osUser)|
    ensures var pg, env := NormalizePgDsn(pgDsn), EvsPgDsnFromEnv(host, port, dbname, user, password);
      env != "" && env != pg ==> dsns[if pg != "" then 1 else 0] == env
  {
    DefaultsNormalized(osUser);
    var pg, env := NormalizePgDsn(pgDsn), EvsPgDsnFromEnv(host, port, dbname, user, password);
    dsns := CollectCandidates(pg, env, DefaultDsns(osUser));
  }

  lemma DefaultsNormalized(osUser: string)
    ensures forall d :: d in NormalizeAll(DefaultDsns(osUser)) ==> Normalized(d)
    ensures "" !in NormalizeAll(DefaultDsns(osUser))
  {
    var defaults := DefaultDsns(osUser);
    forall d | d in NormalizeAll(defaults) ensures Normalized(d) {
      var k :| 0 <= k < |defaults| && d == NormalizeAll(defaults)[k];
      assert defaults[k] in defaults;
      NormalizePgDsnProperties(defaults[k]);
    }
  }

  // ---------------------------------------------------------------------
  // CompatCursor

  /** A result row, cell by cell. */
  type Row = seq<string>

  /** What a fetch hands back: the driver's own answer (no override active), or rows from the override. */
  datatype Fetched<T> = FromDriver | Served(value: T) | IndexError

  /** The cursor wrapper: rows may come from an in-memory override instead of the driver. */
  class CompatCursor {
    var rowsOverride: Option<seq<Row>>
    var rowIdx: int

    constructor ()
      ensures rowsOverride == None && rowIdx == 0
    {
      rowsOverride := None;
      rowIdx := 0;
    }

    /** `_set_rows_override`. */
    method SetRowsOverride(rows: seq<Row>)
      modifies this
      ensures rowsOverride == Some(rows) && rowIdx == 0
    {
      rowsOverride := Some(rows);
      rowIdx := 0;
    }

    /** `execute`: forgets any override; `handled` holds the rows a statement answered
        locally (`_handle_special_sql`), `None` when the statement goes to the driver. */
    method Execute(handled: Option<seq<Row>>)
      modifies this
      ensures rowsOverride == handled && rowIdx == 0
    {
      rowsOverride := None;
      rowIdx := 0;
      if handled.Some? {
        SetRowsOverride(handled.value);
      }
    }

    /** `executemany`: always goes to the driver. */
    method ExecuteMany()
      modifies this
      ensures rowsOverride == None && rowIdx == 0
    {
      rowsOverride := None;
      rowIdx := 0;
    }

    /** `fetchone`: the next override row, `None` at the end. */
    method FetchOne() returns (r: Fetched<Option<Row>>)
      modifies this
      ensures old(rowsOverride).None? ==> r == FromDriver && rowIdx == old(rowIdx)
      ensures rowsOverride == old(rowsOverride)
      ensures old(rowsOverride).Some? ==>
        var rows := old(rowsOverride).value;
        if old(rowIdx) >= |rows| then r == Served(None) && rowIdx == old(rowIdx)
        else if old(rowIdx) < -|rows| then r == IndexError && rowIdx == old(rowIdx)
        else (r == Served(Some(rows[if old(rowIdx) < 0 then old(rowIdx) + |rows| else old(rowIdx)]))
              && rowIdx == old(rowIdx) + 1)
    {
      if rowsOverride.None? {
        return FromDriver;
      }
      var rows := rowsOverride.value;
      if rowIdx >= |rows| {
        return Served(None);
      }
      if rowIdx < -|rows| {
        return IndexError;
      }
      var k := if rowIdx < 0 then rowIdx + |rows| else rowIdx;
      r := Served(Some(rows[k]));
      rowIdx := rowIdx + 1;
    }

    /** `fetchmany(size)`: up to `size` (default 1) further override rows. */
    method FetchMany(size: Option<int>) returns (r: Fetched<seq<Row>>)
      modifies this
      ensures rowsOverride == old(rowsOverride)
      ensures old(rowsOverride).None? ==> r == FromDriver && rowIdx == old(rowIdx)
      ensures old(rowsOverride).Some? ==>
        var rows := old(rowsOverride).value;
        var end := if |rows| < old(rowIdx) + size.GetOr(1) then |rows| else old(rowIdx) + size.GetOr(1);
        r == Served(PySlice(rows, old(rowIdx), end)) && rowIdx == end
      ensures old(rowsOverride).Some? && 0 <= old(rowIdx) <= |old(rowsOverride).value| && size.GetOr(1) >= 0 ==>
        r.Served? && |r.value| <= size.GetOr(1) && old(rowIdx) <= rowIdx
    {
      if rowsOverride.None? {
        return FromDriver;
      }
      var rows := rowsOverride.value;
      var n := size.GetOr(1);
      var start := rowIdx;
      var end := if |rows| < rowIdx + n then |rows| else rowIdx + n;
      rowIdx := end;
      r := Served(PySlice(rows, start, end));
    }

    /** `fetchall`: the remaining override rows. */
    method FetchAll() returns (r: Fetched<seq<Row>>)
      modifies this
      ensures rowsOverride == old(rowsOverride)
      ensures old(rowsOverride).None? ==> r == FromDriver && rowIdx == old(rowIdx)
      ensures old(rowsOverride).Some? ==>
        r == Served(PySlice(old(rowsOverride).value, old(rowIdx), |old(rowsOverride).value|))
        && rowIdx == |old(rowsOverride).value|
      ensures old(rowsOverride).Some? && 0 <= old(rowIdx) <= |old(rowsOverride).value| ==>
        r == Served(old(rowsOverride).value[old(rowIdx)..])
    {
      if rowsOverride.None? {
        return FromDriver;
      }
      var rows := rowsOverride.value;
      var start := rowIdx;
      rowIdx := |rows|;
      r := Served(PySlice(rows, start, |rows|));
      if 0 <= start <= |rows| {
        assert PySlice(rows, start, |rows|) == rows[start..];
      }
    }
  }

  /** Reading the override in pieces returns it in order: `fetchmany(n)` then `fetchall()`
      together give exactly the rows after the starting position. */
  lemma SlicesConcatenate<T>(s: seq<T>, a: int, b: int)
    requires 0 <= a <= b <= |s|
    ensures PySlice(s, a, b) + PySlice(s, b, |s|) == s[a..]
  {
    if a == b { assert PySlice(s, a, b) == []; }
    if b == |s| { assert PySlice(s, b, |s|) == []; }
  }
}
