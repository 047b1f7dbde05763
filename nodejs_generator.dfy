// The typescript-nodejs generator: which follow-up prompts are asked, how the
// answers expand into feature names, how the per-feature dependency tables
// merge into the package's dependencies and devDependencies, and the list of
// template actions.

module NodejsGenerator {
  import opened Wrappers
  import opened Sequences

  // ---------------------------------------------------------------------
  // Answers and the prompt `when` rules (lines 139-228)
  // ---------------------------------------------------------------------

  /**
   * The prompt answers other than `features`. An `Option` is `None` when its
   * key is absent from the answers (inquirer leaves out the key of a prompt
   * that was not asked). `hasDbKnexOrm` says whether the answers carry a key
   * named `db_knex_orm` and `publishable` whether `res.publishable` is truthy:
   * no prompt has either name.
   */
  datatype Answers = Answers(
    apiMiddleware: Option<seq<string>>,
    dbKnexDialect: Option<string>,
    logManagementType: Option<string>,
    analyticsManagementType: Option<string>,
    secretsManagementType: Option<string>,
    hasDbKnexOrm: bool,
    publishable: bool,
    destination: string)

  /** Line 153: the middleware prompt follows the `koa_api` feature. */
  predicate AskApiMiddleware(features: seq<string>) {
    "koa_api" in features
  }

  /** Lines 169-171. */
  predicate AskDbKnexDialect(features: seq<string>) {
    "db_knex" in features || "db_knex_orm" in features
  }

  /** Line 187. */
  predicate AskLogManagementType(features: seq<string>) {
    "log_management" in features
  }

  /** Line 199. */
  predicate AskAnalyticsManagementType(features: seq<string>) {
    "analytics_management" in features
  }

  /** Lines 215-220: the log type is answered before this prompt, so it can be read here. */
  predicate AskSecretsManagementType(features: seq<string>, logManagementType: Option<string>) {
    || "secrets_management" in features
    || logManagementType == Some("logtail")
    || "analytics_management" in features
    || "db_knex" in features
    || "db_knex_orm" in features
  }

  /** Line 227: `res.publishable`, an answer key, not the `publishable` feature. */
  predicate AskPublic(a: Answers) {
    a.publishable
  }

  /** The prompt names of lines 88-224: inquirer stores each answer under its prompt's name. */
  const PromptNames: seq<string> := ["name", "destination", "features", "api_middleware", "db_knex_dialect",
                                     "log_management_type", "analytics_management_type",
                                     "secrets_management_type", "public"]

  /**
   * `keys` are the keys of the answers object `a` was read from: an optional
   * answer is present exactly under its prompt's name, `"db_knex_orm" in data`
   * tests for that key, and a truthy `res.publishable` needs that key.
   */
  predicate AnswerKeys(a: Answers, keys: set<string>) {
    && (a.apiMiddleware.Some? <==> "api_middleware" in keys)
    && (a.dbKnexDialect.Some? <==> "db_knex_dialect" in keys)
    && (a.logManagementType.Some? <==> "log_management_type" in keys)
    && (a.analyticsManagementType.Some? <==> "analytics_management_type" in keys)
    && (a.secretsManagementType.Some? <==> "secrets_management_type" in keys)
    && (a.hasDbKnexOrm <==> "db_knex_orm" in keys)
    && (a.publishable ==> "publishable" in keys)
  }

  /** Answers as the prompts build them: every key is the name of a prompt. */
  predicate FromPrompts(a: Answers, keys: set<string>) {
    AnswerKeys(a, keys) && forall k :: k in keys ==> k in PromptNames
  }

  /**
   * As written, the public prompt is never asked of prompted answers, even
   * when the publishable feature is chosen: `publishable` is a value of the
   * `features` checkbox, not the name of a prompt.
   */
  lemma PublicNeverAsked(features: seq<string>, a: Answers, keys: set<string>)
    requires FromPrompts(a, keys) && "publishable" in features
    ensures !AskPublic(a)
  {
    assert "publishable" !in PromptNames;
  }

  /** Likewise prompted answers never carry a `db_knex_orm` key, so line 236's test is always false for them. */
  lemma KnexOrmKeyNeverPrompted(a: Answers, keys: set<string>)
    requires FromPrompts(a, keys)
    ensures !a.hasDbKnexOrm
  {
    assert "db_knex_orm" !in PromptNames;
  }

  /** The evidently intended rule of line 227: ask whether the package is public when it is publishable. */
  predicate AskPublicIntended(features: seq<string>) {
    "publishable" in features
  }

  /** The intended rule asks the public question exactly when the publishable feature is chosen, where the written one does not. */
  lemma AskPublicIntendedDiffers(features: seq<string>, a: Answers, keys: set<string>)
    requires FromPrompts(a, keys)
    ensures AskPublicIntended(features) <==> exists i :: 0 <= i < |features| && features[i] == "publishable"
    ensures AskPublicIntended(features) ==> AskPublicIntended(features) != AskPublic(a)
  {
    if AskPublicIntended(features) {
      PublicNeverAsked(features, a, keys);
    }
  }

  /** Every setup that asks for a database dialect also asks how secrets are managed. */
  lemma DialectAsksSecrets(features: seq<string>, logManagementType: Option<string>)
    ensures AskDbKnexDialect(features) ==> AskSecretsManagementType(features, logManagementType)
  {
  }

  /** The secrets prompt is asked exactly for the five triggers of lines 216-220. */
  lemma SecretsPromptTriggers(features: seq<string>, logManagementType: Option<string>)
    ensures AskSecretsManagementType(features, logManagementType)
      <==> (|| AskDbKnexDialect(features) || AskAnalyticsManagementType(features)
            || "secrets_management" in features || logManagementType == Some("logtail"))
  {
  }

  // ---------------------------------------------------------------------
  // Feature expansion (lines 231-267)
  // ---------------------------------------------------------------------

  /** `s.replace("-", "_")` with a string pattern: only the first `-` is replaced. */
  function ReplaceFirstDash(s: string): (r: string)
    ensures |r| == |s|
  {
    if s == [] then []
    else if s[0] == '-' then ['_'] + s[1..]
    else [s[0]] + ReplaceFirstDash(s[1..])
  }

  /** The index of the first `-`, or `|s|` when there is none. */
  function FirstDash(s: string): (i: nat)
    ensures i <= |s|
    ensures i < |s| ==> s[i] == '-'
    ensures forall k :: 0 <= k < i ==> s[k] != '-'
  {
    if s == [] then 0
    else if s[0] == '-' then 0
    else 1 + FirstDash(s[1..])
  }

  /** The replacement touches the first dash alone: every other character is kept. */
  lemma {:induction false} ReplaceFirstDashAt(s: string, k: nat)
    requires k < |s|
    ensures ReplaceFirstDash(s)[k] == if k == FirstDash(s) then '_' else s[k]
    decreases |s|
  {
    if s[0] != '-' && k > 0 {
      ReplaceFirstDashAt(s[1..], k - 1);
    }
  }

  function KoaMiddlewareFeatures(ms: seq<string>): (fs: seq<string>)
    ensures |fs| == |ms|
    ensures forall i :: 0 <= i < |ms| ==> fs[i] == "koa_api_" + ms[i]
  {
    seq(|ms|, i requires 0 <= i < |ms| => "koa_api_" + ms[i])
  }

  function DialectFeature(dialect: string): string {
    "db_knex_dialect_" + ReplaceFirstDash(dialect)
  }

  function MiddlewarePart(a: Answers): seq<string> {
    match a.apiMiddleware case Some(ms) => KoaMiddlewareFeatures(ms) case None => []
  }

  function OrmPart(a: Answers): seq<string> {
    if a.hasDbKnexOrm then ["db_knex"] else []
  }

  function DialectPart(a: Answers): seq<string> {
    match a.dbKnexDialect case Some(d) => ["db_knex", DialectFeature(d)] case None => []
  }

  function SecretsPart(a: Answers): seq<string> {
    match a.secretsManagementType case Some(t) => ["secrets_management", "secrets_management_" + t] case None => []
  }

  function AnalyticsPart(a: Answers): seq<string> {
    match a.analyticsManagementType
    case Some(t) => ["analytics_management", "secrets_management", "analytics_management_" + t]
    case None => []
  }

  function LogPart(a: Answers): seq<string> {
    match a.logManagementType
    case Some(t) => ["log_management", "log_management_" + t] + (if t == "logtail" then ["secrets_management"] else [])
    case None => []
  }

  /** The names the answers push onto `features`, in push order. */
  function Expansion(a: Answers): seq<string> {
    MiddlewarePart(a) + OrmPart(a) + DialectPart(a) + SecretsPart(a) + AnalyticsPart(a) + LogPart(a)
  }

  /** Each middleware `m` contributes `koa_api_<m>`, in answer order, right after the chosen features. */
  lemma MiddlewareFeaturesInOrder(features: seq<string>, a: Answers, i: nat)
    requires a.apiMiddleware.Some? && i < |a.apiMiddleware.value|
    ensures |features| + i < |features + Expansion(a)|
    ensures (features + Expansion(a))[|features| + i] == "koa_api_" + a.apiMiddleware.value[i]
  {
  }

  /** A dialect answer adds `db_knex` and the dialect's own feature. */
  lemma DialectExpands(a: Answers)
    requires a.dbKnexDialect.Some?
    ensures "db_knex" in Expansion(a) && DialectFeature(a.dbKnexDialect.value) in Expansion(a)
  {
    var ms, orm, d := MiddlewarePart(a), OrmPart(a), a.dbKnexDialect.value;
    var e := Expansion(a);
    assert e[|ms| + |orm|] == "db_knex" && e[|ms| + |orm| + 1] == DialectFeature(d);
  }

  /** Logtail logging and an analytics answer each bring in `secrets_management`. */
  lemma LogtailOrAnalyticsNeedSecrets(a: Answers)
    requires a.logManagementType == Some("logtail") || a.analyticsManagementType.Some?
    ensures "secrets_management" in Expansion(a)
  {
    var e := Expansion(a);
    if a.logManagementType == Some("logtail") {
      assert e[|e| - 1] == "secrets_management";
    } else {
      assert e[|e| - |LogPart(a)| - 2] == "secrets_management";
    }
  }

  /**
   * `db_knex` comes from the `db_knex_orm` answer key or a dialect answer;
   * choosing the `db_knex_orm` feature does not add it.
   */
  lemma KnexFromAnswerKeys(a: Answers)
    ensures "db_knex" in Expansion(a) <==> a.hasDbKnexOrm || a.dbKnexDialect.Some?
  {
    if a.hasDbKnexOrm || a.dbKnexDialect.Some? {
      if a.dbKnexDialect.Some? {
        DialectExpands(a);
      } else {
        assert Expansion(a)[|MiddlewarePart(a)|] == "db_knex";
      }
    } else {
      var ms := MiddlewarePart(a);
      forall i | 0 <= i < |ms| ensures ms[i] != "db_knex" {
        assert ms[i][..8] == "koa_api_";
      }
    }
  }

  // ---------------------------------------------------------------------
  // Dependency tables (lines 14-80)
  // ---------------------------------------------------------------------

  /** A table entry: a package and the version a feature pins it at. */
  datatype Package = Package(name: string, version: string)

  /** An entry of the merged maps: `{ ...f, source: feature }`. */
  datatype Dependency = Dependency(name: string, version: string, source: string)

  /** Feature name to the packages it needs, in listing order. */
  type Table = map<string, seq<Package>>

  const PackageDependencies: Table := map[
    "default" := [],
    "koa_api" := [Package("koa", "2.14.1"), Package("koa-object-router", "1.3.2"), Package("dotenv", "16.0.3")],
    "koa_api_json_bodyparser" := [Package("koa-bodyparser", "4.3.0")],
    "koa_api_cors" := [Package("@koa/cors", "4.0.0")],
    "publishable" := [Package("@types/node", "18.11.18"), Package("@typescript-eslint/eslint-plugin", "5.48.1"),
                      Package("@typescript-eslint/parser", "5.48.1")],
    "command_line_tool" := [Package("chalk", "5.2.0"), Package("commander", "9.5.0")],
    "secrets_management" := [Package("dotenv", "16.0.3")],
    "secrets_management_doppler" := [Package("got", "12.5.3")],
    "log_management" := [Package("pino", "8.10.0"), Package("koa-pino-logger", "4.0.0")],
    "log_management_logtail" := [Package("@logtail/pino", "0.2.0")],
    "log_management_syslog" := [Package("pino-syslog", "3.0.0")],
    "analytics_management" := [Package("type-fest", "3.5.7")],
    "analytics_management_posthog" := [Package("posthog-node", "2.5.3")],
    "db_knex" := [Package("knex", "2.4.2")],
    "db_knex_orm" := [Package("tiny-knex-orm", "1.0.0")],
    "db_knex_dialect_pg" := [Package("pg", "8.9.0")],
    "db_knex_dialect_pg_native" := [Package("pg-native", "3.0.1")],
    "db_knex_dialect_sqlite3" := [Package("sqlite3", "5.1.4")],
    "db_knex_dialect_better_sqlite3" := [Package("better-sqlite3", "8.1.0")],
    "db_knex_dialect_mysql" := [Package("mysql", "2.18.1")],
    "db_knex_dialect_mysql2" := [Package("mysql2", "3.1.2")],
    "db_knex_dialect_oracledb" := [Package("oracledb", "5.5.0")],
    "db_knex_dialect_tedious" := [Package("tedious", "15.1.3")]
  ]

  const PackageDevDependencies: Table := map[
    "default" := [Package("@types/node", "18.11.18"), Package("@typescript-eslint/eslint-plugin", "5.48.1"),
                  Package("@typescript-eslint/parser", "5.48.1"), Package("concurrently", "7.6.0"),
                  Package("esbuild", "0.16.16"), Package("eslint", "8.31.0"),
                  Package("eslint-config-prettier", "8.6.0"), Package("prettier", "2.8.4"),
                  Package("typescript", "4.9.4"), Package("vitest", "0.28.1")],
    "koa_api" := [Package("nodemon", "2.0.20"), Package("@swc/cli", "0.1.62"), Package("@swc/core", "1.3.35"),
                  Package("chokidar", "3.5.3"), Package("@types/koa", "2.13.5")],
    "koa_api_json_bodyparser" := [Package("@types/koa-bodyparser", "4.3.10")],
    "koa_api_cors" := [Package("@types/koa__cors", "3.3.0")],
    "log_management" := [Package("@types/koa-pino-logger", "3.0.1")]
  ]

  /** A name without a dash is passed through unchanged. */
  lemma {:induction false} ReplaceNoDash(s: string)
    requires forall k :: 0 <= k < |s| ==> s[k] != '-'
    ensures ReplaceFirstDash(s) == s
  {
    if s != [] {
      ReplaceNoDash(s[1..]);
    }
  }

  /** Only the first dash is replaced: later dashes stay. */
  lemma {:induction false} ReplaceDashSplit(p: string, q: string)
    requires forall k :: 0 <= k < |p| ==> p[k] != '-'
    ensures ReplaceFirstDash(p + "-" + q) == p + "_" + q
  {
    if p == [] {
      assert p + "-" + q == "-" + q;
    } else {
      assert (p + "-" + q)[1..] == p[1..] + "-" + q;
      ReplaceDashSplit(p[1..], q);
    }
  }

  // ---------------------------------------------------------------------
  // The merged maps (lines 268-333)
  // ---------------------------------------------------------------------

  /** A JavaScript `Map` from package name to entry, in insertion order. */
  type DepMap = seq<Dependency>

  predicate UniqueNames(m: seq<Dependency>) {
    forall i, j :: 0 <= i < j < |m| ==> m[i].name != m[j].name
  }

  /** `map.get(name)`. */
  function Find(m: DepMap, name: string): (r: Option<Dependency>)
    ensures r.Some? ==> r.value in m && r.value.name == name
    ensures r.None? <==> forall d :: d in m ==> d.name != name
  {
    if m == [] then None
    else if m[0].name == name then Some(m[0])
    else Find(m[1..], name)
  }

  /** `map.set(d.name, d)`: replaces the entry in place when the name is present, else appends. */
  function Put(m: DepMap, d: Dependency): (r: DepMap)
    ensures Find(r, d.name) == Some(d)
    ensures forall n :: n != d.name ==> Find(r, n) == Find(m, n)
  {
    if m == [] then [d]
    else if m[0].name == d.name then [d] + m[1..]
    else [m[0]] + Put(m[1..], d)
  }

  /** `set` adds no entry other than the one it is given. */
  lemma {:induction false} PutElements(m: DepMap, d: Dependency)
    ensures forall e :: e in Put(m, d) ==> e == d || e in m
  {
    if m != [] && m[0].name != d.name {
      PutElements(m[1..], d);
    }
  }

  lemma UniqueNamesTail(m: seq<Dependency>)
    requires m != [] && UniqueNames(m)
    ensures UniqueNames(m[1..])
  {
    forall i, j | 0 <= i < j < |m[1..]| ensures m[1..][i].name != m[1..][j].name {
      assert m[1..][i] == m[i + 1] && m[1..][j] == m[j + 1];
    }
  }

  /** No later entry shares the first entry's name. */
  lemma HeadNameUnique(m: seq<Dependency>)
    requires m != [] && UniqueNames(m)
    ensures forall e :: e in m[1..] ==> e.name != m[0].name
  {
    forall e | e in m[1..] ensures e.name != m[0].name {
      var i :| 0 <= i < |m[1..]| && m[1..][i] == e;
      assert m[i + 1] == e;
    }
  }

  lemma UniqueCons(x: Dependency, rest: seq<Dependency>)
    requires UniqueNames(rest) && forall e :: e in rest ==> e.name != x.name
    ensures UniqueNames([x] + rest)
  {
    var r := [x] + rest;
    forall i, j | 0 <= i < j < |r| ensures r[i].name != r[j].name {
      assert r[j] == rest[j - 1];
      if i > 0 {
        assert r[i] == rest[i - 1];
      } else {
        assert r[j] in rest;
      }
    }
  }

  /** A `Map` keeps one entry per name. */
  lemma {:induction false} PutUnique(m: DepMap, d: Dependency)
    requires UniqueNames(m)
    ensures UniqueNames(Put(m, d))
  {
    if m != [] && m[0].name != d.name {
      UniqueNamesTail(m);
      PutUnique(m[1..], d);
      PutElements(m[1..], d);
      HeadNameUnique(m);
      UniqueCons(m[0], Put(m[1..], d));
    } else if m != [] {
      HeadNameUnique(m);
      UniqueNamesTail(m);
      UniqueCons(d, m[1..]);
    }
  }

  /** The inner loop over one feature's listing: each package not in `skip` is set with that feature as source. */
  function PutListing(m: DepMap, feature: string, pkgs: seq<Package>, skip: DepMap): DepMap
    decreases |pkgs|
  {
    if pkgs == [] then m
    else
      var m' := PutListing(m, feature, pkgs[..|pkgs| - 1], skip);
      var f := pkgs[|pkgs| - 1];
      if Find(skip, f.name).Some? then m' else Put(m', Dependency(f.name, f.version, feature))
  }

  /** The outer loop: every feature with a table entry has its listing merged, in order. */
  function PutFeatures(m: DepMap, table: Table, features: seq<string>, skip: DepMap): DepMap
    decreases |features|
  {
    if features == [] then m
    else
      var m' := PutFeatures(m, table, features[..|features| - 1], skip);
      var feature := features[|features| - 1];
      if feature in table then PutListing(m', feature, table[feature], skip) else m'
  }

  /** Lines 268-295: the map starts from the `default` listing and takes every feature's listing in turn. */
  function Dependencies(table: Table, features: seq<string>): DepMap
    requires "default" in table
  {
    PutFeatures(PutListing([], "default", table["default"], []), table, features, [])
  }

  /** Lines 296-333: `default` first, then the features; names already in `deps` are passed over. */
  function DevDependencies(devTable: Table, features: seq<string>, deps: DepMap): DepMap {
    PutFeatures([], devTable, ["default"] + features, deps)
  }

  // Reference definitions: the entry a name ends up with, read off the tables directly.

  /** The last package of a listing with the given name. */
  function LastPackage(pkgs: seq<Package>, name: string): (r: Option<Package>)
    ensures r.Some? ==> r.value in pkgs && r.value.name == name
    ensures r.None? <==> forall f :: f in pkgs ==> f.name != name
    decreases |pkgs|
  {
    if pkgs == [] then None
    else if pkgs[|pkgs| - 1].name == name then Some(pkgs[|pkgs| - 1])
    else
      assert pkgs == pkgs[..|pkgs| - 1] + [pkgs[|pkgs| - 1]];
      LastPackage(pkgs[..|pkgs| - 1], name)
  }

  /** The entry from the last feature (in order) whose listing names the package, with that feature as source. */
  function LastListing(table: Table, features: seq<string>, name: string): (r: Option<Dependency>)
    ensures r.Some? ==> r.value.name == name && r.value.source in features
    decreases |features|
  {
    if features == [] then None
    else
      var feature := features[|features| - 1];
      if feature in table && LastPackage(table[feature], name).Some? then
        Some(Dependency(name, LastPackage(table[feature], name).value.version, feature))
      else
        var r := LastListing(table, features[..|features| - 1], name);
        assert r.Some? ==> r.value.source in features by {
          if r.Some? {
            assert features == features[..|features| - 1] + [feature];
          }
        }
        r
  }

  /** What a name maps to after one listing: the last package of that name, unless it is skipped. */
  lemma {:induction false} PutListingFind(m: DepMap, feature: string, pkgs: seq<Package>, skip: DepMap, name: string)
    ensures Find(PutListing(m, feature, pkgs, skip), name)
      == if Find(skip, name).None? && LastPackage(pkgs, name).Some?
         then Some(Dependency(name, LastPackage(pkgs, name).value.version, feature))
         else Find(m, name)
    decreases |pkgs|
  {
    if pkgs != [] {
      PutListingFind(m, feature, pkgs[..|pkgs| - 1], skip, name);
    }
  }

  /** What a name maps to after the listing of every feature. */
  lemma {:induction false} PutFeaturesFind(m: DepMap, table: Table, features: seq<string>, skip: DepMap, name: string)
    ensures Find(PutFeatures(m, table, features, skip), name)
      == if Find(skip, name).None? && LastListing(table, features, name).Some?
         then LastListing(table, features, name)
         else Find(m, name)
    decreases |features|
  {
    if features != [] {
      var init, feature := features[..|features| - 1], features[|features| - 1];
      PutFeaturesFind(m, table, init, skip, name);
      if feature in table {
        PutListingFind(PutFeatures(m, table, init, skip), feature, table[feature], skip, name);
      }
    }
  }

  /** Scanning from the end, a listing put in front is consulted last. */
  lemma {:induction false} LastListingCons(table: Table, feature: string, features: seq<string>, name: string)
    ensures LastListing(table, [feature] + features, name)
      == if LastListing(table, features, name).Some? then LastListing(table, features, name)
         else LastListing(table, [feature], name)
    decreases |features|
  {
    var fs := [feature] + features;
    if features == [] {
      assert fs == [feature];
    } else {
      assert fs[..|fs| - 1] == [feature] + features[..|features| - 1];
      assert fs[|fs| - 1] == features[|features| - 1];
      LastListingCons(table, feature, features[..|features| - 1], name);
    }
  }

  /**
   * For each package name, `dependencies` holds the entry of the last feature
   * (`default` counting as the first) whose listing names it, with that
   * feature as source, and nothing when no listing names it.
   */
  lemma DependenciesLastWins(table: Table, features: seq<string>, name: string)
    requires "default" in table
    ensures Find(Dependencies(table, features), name) == LastListing(table, ["default"] + features, name)
  {
    var init := PutListing([], "default", table["default"], []);
    PutFeaturesFind(init, table, features, [], name);
    PutListingFind([], "default", table["default"], [], name);
    LastListingCons(table, "default", features, name);
    var one := ["default"];
    assert one[..0] == [];
  }

  /** A name that is a dependency never becomes a devDependency. */
  lemma DevDependenciesDisjoint(devTable: Table, features: seq<string>, deps: DepMap, name: string)
    requires Find(deps, name).Some?
    ensures Find(DevDependencies(devTable, features, deps), name).None?
  {
    PutFeaturesFind([], devTable, ["default"] + features, deps, name);
  }

  /** Any other name gets the last dev listing's entry, `default` counting as the first. */
  lemma DevDependenciesLastWins(devTable: Table, features: seq<string>, deps: DepMap, name: string)
    requires Find(deps, name).None?
    ensures Find(DevDependencies(devTable, features, deps), name) == LastListing(devTable, ["default"] + features, name)
  {
    PutFeaturesFind([], devTable, ["default"] + features, deps, name);
  }

  lemma {:induction false} PutListingUnique(m: DepMap, feature: string, pkgs: seq<Package>, skip: DepMap)
    requires UniqueNames(m)
    ensures UniqueNames(PutListing(m, feature, pkgs, skip))
    decreases |pkgs|
  {
    if pkgs != [] {
      PutListingUnique(m, feature, pkgs[..|pkgs| - 1], skip);
      var f := pkgs[|pkgs| - 1];
      PutUnique(PutListing(m, feature, pkgs[..|pkgs| - 1], skip), Dependency(f.name, f.version, feature));
    }
  }

  lemma {:induction false} PutFeaturesUnique(m: DepMap, table: Table, features: seq<string>, skip: DepMap)
    requires UniqueNames(m)
    ensures UniqueNames(PutFeatures(m, table, features, skip))
    decreases |features|
  {
    if features != [] {
      var init, feature := features[..|features| - 1], features[|features| - 1];
      PutFeaturesUnique(m, table, init, skip);
      if feature in table {
        PutListingUnique(PutFeatures(m, table, init, skip), feature, table[feature], skip);
      }
    }
  }

  /** Both maps hold one entry per name. */
  lemma MergedMapsUnique(table: Table, devTable: Table, features: seq<string>)
    requires "default" in table
    ensures UniqueNames(Dependencies(table, features))
    ensures UniqueNames(DevDependencies(devTable, features, Dependencies(table, features)))
  {
    PutListingUnique([], "default", table["default"], []);
    PutFeaturesUnique(PutListing([], "default", table["default"], []), table, features, []);
    PutFeaturesUnique([], devTable, ["default"] + features, Dependencies(table, features));
  }

  /** In a map with one entry per name, an entry is what its name finds. */
  lemma {:induction false} FindEntry(m: DepMap, d: Dependency)
    requires UniqueNames(m) && d in m
    ensures Find(m, d.name) == Some(d)
  {
    if m[0] != d {
      UniqueNamesTail(m);
      var i :| 0 <= i < |m| && m[i] == d;
      assert i > 0 && m[1..][i - 1] == d;
      FindEntry(m[1..], d);
    }
  }

  // ---------------------------------------------------------------------
  // Sorting by name (lines 335-342)
  // ---------------------------------------------------------------------

  /** JavaScript's `a < b` on strings: lexicographic by character. */
  predicate StrLess(a: string, b: string)
    decreases |a|
  {
    if a == [] then b != []
    else if b == [] then false
    else a[0] < b[0] || (a[0] == b[0] && StrLess(a[1..], b[1..]))
  }

  lemma {:induction false} StrLessIrreflexive(a: string)
    ensures !StrLess(a, a)
    decreases |a|
  {
    if a != [] {
      StrLessIrreflexive(a[1..]);
    }
  }

  lemma {:induction false} StrLessTransitive(a: string, b: string, c: string)
    requires StrLess(a, b) && StrLess(b, c)
    ensures StrLess(a, c)
    decreases |a|
  {
    if a != [] && a[0] == b[0] && b[0] == c[0] {
      StrLessTransitive(a[1..], b[1..], c[1..]);
    }
  }

  /** Two different strings are ordered one way or the other: the comparator returns 0 only for equal names. */
  lemma {:induction false} StrLessTotal(a: string, b: string)
    requires a != b
    ensures StrLess(a, b) || StrLess(b, a)
    decreases |a|
  {
    if a != [] && b != [] && a[0] == b[0] {
      assert a[1..] != b[1..] by {
        assert a == [a[0]] + a[1..] && b == [b[0]] + b[1..];
      }
      StrLessTotal(a[1..], b[1..]);
    }
  }

  /** "Not after" is transitive. */
  lemma NotLessTransitive(a: string, b: string, c: string)
    requires !StrLess(b, a) && !StrLess(c, b)
    ensures !StrLess(c, a)
  {
    if a != b && b != c {
      StrLessTotal(a, b);
      StrLessTotal(b, c);
      StrLessTransitive(a, b, c);
      StrLessAsymmetric(a, c);
    }
  }

  lemma StrLessAsymmetric(a: string, b: string)
    requires StrLess(a, b)
    ensures !StrLess(b, a)
  {
    if StrLess(b, a) {
      StrLessTransitive(a, b, a);
      StrLessIrreflexive(a);
    }
  }

  /** Positions `lo..hi` are in ascending name order. */
  ghost predicate SortedBetween(s: seq<Dependency>, lo: int, hi: int)
    requires 0 <= lo <= hi <= |s|
  {
    forall i, j :: lo <= i < j < hi ==> !StrLess(s[j].name, s[i].name)
  }

  predicate SortedByName(s: seq<Dependency>) {
    forall i, j :: 0 <= i < j < |s| ==> !StrLess(s[j].name, s[i].name)
  }

  /**
   * `array.sort` with the name comparator, in place: afterwards the array is
   * in ascending name order and holds the same entries.
   */
  method SortByName(a: array<Dependency>)
    modifies a
    ensures SortedByName(a[..])
    ensures multiset(a[..]) == multiset(old(a[..]))
  {
    for i := 0 to a.Length
      invariant SortedBetween(a[..], 0, i)
      invariant multiset(a[..]) == multiset(old(a[..]))
    {
      Insert(a, i);
    }
  }

  /** Moves `a[i]` down into the sorted prefix `a[..i]`. */
  method Insert(a: array<Dependency>, i: nat)
    requires i < a.Length && SortedBetween(a[..], 0, i)
    modifies a
    ensures SortedBetween(a[..], 0, i + 1)
    ensures multiset(a[..]) == multiset(old(a[..]))
  {
    var j := i;
    while j > 0 && StrLess(a[j].name, a[j - 1].name)
      invariant 0 <= j <= i
      invariant multiset(a[..]) == multiset(old(a[..]))
      invariant SortedBetween(a[..], 0, j) && SortedBetween(a[..], j, i + 1)
      invariant forall k, l :: 0 <= k < j < l <= i ==> !StrLess(a[l].name, a[k].name)
    {
      Swap(a, j, i);
      j := j - 1;
    }
    forall k, l | 0 <= k < l <= i ensures !StrLess(a[l].name, a[k].name) {
      if l == j && k == j - 1 {
      } else if l == j && k < j {
        NotLessTransitive(a[k].name, a[j - 1].name, a[j].name);
      }
    }
  }

  /** One step of the insertion: `a[j]` swaps with its larger left neighbour, keeping the loop's invariant at `j - 1`. */
  method Swap(a: array<Dependency>, j: nat, i: nat)
    requires 0 < j <= i < a.Length && StrLess(a[j].name, a[j - 1].name)
    requires SortedBetween(a[..], 0, j) && SortedBetween(a[..], j, i + 1)
    requires forall k, l :: 0 <= k < j < l <= i ==> !StrLess(a[l].name, a[k].name)
    modifies a
    ensures multiset(a[..]) == multiset(old(a[..]))
    ensures SortedBetween(a[..], 0, j - 1) && SortedBetween(a[..], j - 1, i + 1)
    ensures forall k, l :: 0 <= k < j - 1 < l <= i ==> !StrLess(a[l].name, a[k].name)
  {
    StrLessAsymmetric(a[j].name, a[j - 1].name);
    ghost var s := a[..];
    a[j - 1], a[j] := a[j], a[j - 1];
    assert a[..] == s[j - 1 := s[j]][j := s[j - 1]];
    SwapKeepsOrder(s, a[..], j, i);
  }

  /** The order facts after exchanging `s[j - 1]` and `s[j]`. */
  lemma SwapKeepsOrder(s: seq<Dependency>, t: seq<Dependency>, j: nat, i: nat)
    requires 0 < j <= i < |s| == |t| && !StrLess(s[j - 1].name, s[j].name)
    requires t == s[j - 1 := s[j]][j := s[j - 1]]
    requires SortedBetween(s, 0, j) && SortedBetween(s, j, i + 1)
    requires forall k, l :: 0 <= k < j < l <= i ==> !StrLess(s[l].name, s[k].name)
    ensures SortedBetween(t, 0, j - 1) && SortedBetween(t, j - 1, i + 1)
    ensures forall k, l :: 0 <= k < j - 1 < l <= i ==> !StrLess(t[l].name, t[k].name)
  {
    assert SortedBetween(t, 0, j - 1) by {
      forall k, l | 0 <= k < l < j - 1 ensures !StrLess(t[l].name, t[k].name) {
        assert t[l] == s[l] && t[k] == s[k];
      }
    }
    assert SortedBetween(t, j - 1, i + 1) by {
      forall k, l | j - 1 <= k < l < i + 1 ensures !StrLess(t[l].name, t[k].name) {
        if k == j - 1 {
          assert t[k] == s[j];
          if l == j {
            assert t[l] == s[j - 1];
          } else {
            assert t[l] == s[l];
          }
        } else {
          assert t[k] == (if k == j then s[j - 1] else s[k]) && t[l] == s[l];
        }
      }
    }
    forall k, l | 0 <= k < j - 1 < l <= i ensures !StrLess(t[l].name, t[k].name) {
      assert t[k] == s[k];
      if l == j {
        assert t[l] == s[j - 1];
      } else {
        assert t[l] == s[l];
      }
    }
  }

  lemma {:induction false} UniqueCount(s: seq<Dependency>, x: Dependency)
    requires UniqueNames(s)
    ensures multiset(s)[x] <= 1
  {
    if s != [] {
      UniqueNamesTail(s);
      UniqueCount(s[1..], x);
      assert s == [s[0]] + s[1..];
      if s[0] == x {
        forall k | 0 <= k < |s[1..]| ensures s[1..][k] != x {
          assert s[1..][k] == s[k + 1];
        }
      }
    }
  }

  lemma RepeatedCount(t: seq<Dependency>, i: nat, j: nat)
    requires i < j < |t| && t[i] == t[j]
    ensures multiset(t)[t[i]] >= 2
  {
    assert t == t[..j] + t[j..];
    assert t[i] == t[..j][i] && t[j] == t[j..][0];
  }

  /** Sorting cannot create a second entry for a name: a permutation of a one-entry-per-name list is one too. */
  lemma PermutationUnique(s: seq<Dependency>, t: seq<Dependency>)
    requires multiset(s) == multiset(t) && UniqueNames(s)
    ensures UniqueNames(t)
  {
    forall i, j | 0 <= i < j < |t| ensures t[i].name != t[j].name {
      if t[i] == t[j] {
        RepeatedCount(t, i, j);
        UniqueCount(s, t[i]);
      } else {
        assert t[i] in multiset(s) && t[j] in multiset(s);
      }
    }
  }

  // ---------------------------------------------------------------------
  // The actions callback (lines 230-364)
  // ---------------------------------------------------------------------

  /** An `addMany` action; `globDot` is `globOptions: { dot: true }`, and `None` marks an option the action leaves out. */
  datatype Action = AddMany(destination: string, templateFiles: string, base: string,
                            globDot: bool, stripExtensions: Option<seq<string>>, force: Option<bool>)

  /** The folder holding one sub-folder of templates per feature. */
  const FeaturesRoot: string := "typescript-nodejs/features/"

  /** The feature whose folder `base` names, if it names one: the inverse of the `base` of a feature action. */
  function FeatureOfBase(base: string): Option<string> {
    if |base| > |FeaturesRoot| && base[..|FeaturesRoot|] == FeaturesRoot && base[|base| - 1] == '/'
    then Some(base[|FeaturesRoot|..|base| - 1])
    else None
  }

  /**
   * Lines 344-350: every file of the generator's base templates, dot files
   * included, copied without overwriting and with names kept as they are
   * (node-plop's defaults); the base folder belongs to no feature.
   */
  function BaseAction(destination: string): (r: Action)
    ensures r.destination == destination && r.templateFiles == "**/*" && r.globDot
    ensures r.stripExtensions.None? && r.force.None?
    ensures FeatureOfBase(r.base) == None
  {
    AddMany(destination, "**/*", "typescript-nodejs/templates", true, None, None)
  }

  /**
   * Lines 353-361: every file of one feature's own folder, dot files
   * included, forced over what is there, with ".hbs" stripped from names;
   * the folder names back exactly that feature.
   */
  function FeatureAction(destination: string, feature: string): (r: Action)
    ensures r.destination == destination && r.templateFiles == "**/*" && r.globDot
    ensures r.stripExtensions == Some(["hbs"]) && r.force == Some(true)
    ensures FeatureOfBase(r.base) == Some(feature)
  {
    var base := FeaturesRoot + feature + "/";
    assert base[..|FeaturesRoot|] == FeaturesRoot;
    assert base[|FeaturesRoot|..|base| - 1] == feature;
    AddMany(destination, "**/*", base, true, Some(["hbs"]), Some(true))
  }

  /** Two feature actions copy from the same folder only for the same feature, and never from the base templates' folder. */
  lemma FeatureFoldersDistinct(destination: string, f: string, g: string)
    ensures FeatureAction(destination, f).base == FeatureAction(destination, g).base <==> f == g
    ensures FeatureAction(destination, f).base != BaseAction(destination).base
  {
  }

  /** The `data` object the callback receives and updates: answers are read, the three lists written. */
  class GeneratorData {
    var features: seq<string>
    var dependencies: seq<Dependency>
    var devDependencies: seq<Dependency>
    const answers: Answers

    constructor(features: seq<string>, answers: Answers)
      ensures this.features == features && this.answers == answers
      ensures dependencies == [] && devDependencies == []
    {
      this.features := features;
      this.answers := answers;
      dependencies := [];
      devDependencies := [];
    }
  }

  /** Lines 231-267: pushes the derived feature names onto `data.features`. */
  method ExpandFeatures(data: GeneratorData)
    modifies data
    ensures data.features == old(data.features) + Expansion(data.answers)
    ensures data.dependencies == old(data.dependencies) && data.devDependencies == old(data.devDependencies)
  {
    data.features := PushExpansion(data.features, data.answers);
  }

  /** The pushes themselves, on the features list. */
  method PushExpansion(start: seq<string>, a: Answers) returns (features: seq<string>)
    ensures features == start + Expansion(a)
  {
    features := PushMiddleware(start, a);
    features := PushKnexAndSecrets(features, a);
    features := PushLogging(features, a);
    ExpansionAssoc(start, a);
  }

  /** Lines 231-235. */
  method PushMiddleware(start: seq<string>, a: Answers) returns (features: seq<string>)
    ensures features == start + MiddlewarePart(a)
  {
    features := start;
    if a.apiMiddleware.Some? {
      var ms := a.apiMiddleware.value;
      for i := 0 to |ms|
        invariant features == start + KoaMiddlewareFeatures(ms[..i])
      {
        assert KoaMiddlewareFeatures(ms[..i + 1]) == KoaMiddlewareFeatures(ms[..i]) + ["koa_api_" + ms[i]];
        features := features + ["koa_api_" + ms[i]];
      }
      assert ms[..|ms|] == ms;
    } else {
      assert features == start + [];
    }
  }

  /** Lines 236-258. */
  method PushKnexAndSecrets(start: seq<string>, a: Answers) returns (features: seq<string>)
    ensures features == start + OrmPart(a) + DialectPart(a) + SecretsPart(a) + AnalyticsPart(a)
  {
    features := start;
    if a.hasDbKnexOrm {
      features := features + ["db_knex"];
    } else {
      assert features == features + [];
    }
    ghost var f1 := features;
    if a.dbKnexDialect.Some? {
      features := features + ["db_knex", DialectFeature(a.dbKnexDialect.value)];
    } else {
      assert features == features + [];
    }
    ghost var f2 := features;
    assert f2 == f1 + DialectPart(a);
    if a.secretsManagementType.Some? {
      features := features + ["secrets_management", "secrets_management_" + a.secretsManagementType.value];
    } else {
      assert features == features + [];
    }
    ghost var f3 := features;
    assert f3 == f2 + SecretsPart(a);
    if a.analyticsManagementType.Some? {
      var t := a.analyticsManagementType.value;
      features := features + ["analytics_management", "secrets_management", "analytics_management_" + t];
    } else {
      assert features == features + [];
    }
  }

  /** Lines 259-267. */
  method PushLogging(start: seq<string>, a: Answers) returns (features: seq<string>)
    ensures features == start + LogPart(a)
  {
    features := start;
    if a.logManagementType.Some? {
      var t := a.logManagementType.value;
      features := features + ["log_management", "log_management_" + t];
      if t == "logtail" {
        Assoc(start, ["log_management", "log_management_" + t], ["secrets_management"]);
        features := features + ["secrets_management"];
      } else {
        assert features == start + (["log_management", "log_management_" + t] + []);
      }
    } else {
      assert features == start + [];
    }
  }

  /** Pushing the parts one after another appends the whole expansion. */
  lemma ExpansionAssoc(start: seq<string>, a: Answers)
    ensures start + MiddlewarePart(a) + OrmPart(a) + DialectPart(a) + SecretsPart(a) + AnalyticsPart(a) + LogPart(a)
         == start + Expansion(a)
  {
    var m, o, d, s, an, l := MiddlewarePart(a), OrmPart(a), DialectPart(a), SecretsPart(a), AnalyticsPart(a), LogPart(a);
    calc {
      start + m + o + d + s + an + l;
      { Assoc(start, m, o); }
      start + (m + o) + d + s + an + l;
      { Assoc(start, m + o, d); }
      start + (m + o + d) + s + an + l;
      { Assoc(start, m + o + d, s); }
      start + (m + o + d + s) + an + l;
      { Assoc(start, m + o + d + s, an); }
      start + (m + o + d + s + an) + l;
      { Assoc(start, m + o + d + s + an, l); }
      start + (m + o + d + s + an + l);
    }
  }

  lemma PutListingStep(m: DepMap, feature: string, pkgs: seq<Package>, skip: DepMap, j: nat)
    requires j < |pkgs|
    ensures PutListing(m, feature, pkgs[..j + 1], skip)
      == if Find(skip, pkgs[j].name).Some? then PutListing(m, feature, pkgs[..j], skip)
         else Put(PutListing(m, feature, pkgs[..j], skip), Dependency(pkgs[j].name, pkgs[j].version, feature))
  {
    assert pkgs[..j + 1][..j] == pkgs[..j];
  }

  lemma PutFeaturesStep(m: DepMap, table: Table, features: seq<string>, skip: DepMap, i: nat)
    requires i < |features|
    ensures PutFeatures(m, table, features[..i + 1], skip)
      == if features[i] in table then PutListing(PutFeatures(m, table, features[..i], skip), features[i], table[features[i]], skip)
         else PutFeatures(m, table, features[..i], skip)
  {
    assert features[..i + 1][..i] == features[..i];
  }

  /**
   * One feature's listing, set into `m` (lines 277-293 or 298-330): each
   * package whose name `skip` lacks is set with this feature as its source.
   */
  method SetListing(m: DepMap, feature: string, pkgs: seq<Package>, skip: DepMap) returns (r: DepMap)
    ensures r == PutListing(m, feature, pkgs, skip)
  {
    r := m;
    for j := 0 to |pkgs|
      invariant r == PutListing(m, feature, pkgs[..j], skip)
    {
      var f := pkgs[j];
      PutListingStep(m, feature, pkgs, skip, j);
      var existing := Find(skip, f.name);
      if existing.None? {
        r := Put(r, Dependency(f.name, f.version, feature));
      }
    }
    assert pkgs[..|pkgs|] == pkgs;
  }

  /** The outer loops of lines 275-295 and 296-333 over the features in order. */
  method SetFeatures(m: DepMap, table: Table, features: seq<string>, skip: DepMap) returns (r: DepMap)
    ensures r == PutFeatures(m, table, features, skip)
  {
    r := m;
    for i := 0 to |features|
      invariant r == PutFeatures(m, table, features[..i], skip)
    {
      var feature := features[i];
      PutFeaturesStep(m, table, features, skip, i);
      if feature in table {
        r := SetListing(r, feature, table[feature], skip);
      }
    }
    assert features[..|features|] == features;
  }

  /**
   * Lines 268-333: dependencies from `default` and each feature's listing,
   * then devDependencies from `default` and each feature, passing over names
   * that are already dependencies.
   */
  method MergeDependencies(table: Table, devTable: Table, features: seq<string>) returns (deps: DepMap, devDeps: DepMap)
    requires "default" in table
    ensures deps == Dependencies(table, features)
    ensures devDeps == DevDependencies(devTable, features, deps)
  {
    deps := PutListing([], "default", table["default"], []);
    deps := SetFeatures(deps, table, features, []);
    devDeps := SetFeatures([], devTable, ["default"] + features, deps);
  }

  /** `[...map.values()]` followed by the in-place sort. */
  method SortedValues(m: DepMap) returns (r: seq<Dependency>)
    ensures SortedByName(r) && multiset(r) == multiset(m)
  {
    var a := new Dependency[|m|](i requires 0 <= i < |m| => m[i]);
    assert a[..] == m;
    SortByName(a);
    r := a[..];
  }

  /** Lines 343-362: the base templates, then one action per features entry, duplicates included. */
  method FeatureActions(destination: string, features: seq<string>) returns (actions: seq<Action>)
    ensures |actions| == 1 + |features|
    ensures actions[0] == BaseAction(destination)
    ensures forall i :: 0 <= i < |features| ==> actions[i + 1] == FeatureAction(destination, features[i])
  {
    actions := [BaseAction(destination)];
    for i := 0 to |features|
      invariant |actions| == 1 + i && actions[0] == BaseAction(destination)
      invariant forall k :: 0 <= k < i ==> actions[k + 1] == FeatureAction(destination, features[k])
    {
      actions := actions + [FeatureAction(destination, features[i])];
    }
  }

  /** What lines 335-342 leave in `data.dependencies` and `data.devDependencies`. */
  ghost predicate MergedOutputs(table: Table, devTable: Table, features: seq<string>,
                                deps: seq<Dependency>, devDeps: seq<Dependency>)
  {
    && "default" in table
    && SortedByName(deps) && SortedByName(devDeps)
    && multiset(deps) == multiset(Dependencies(table, features))
    && multiset(devDeps) == multiset(DevDependencies(devTable, features, Dependencies(table, features)))
  }

  /** The callback (lines 230-364) on `data`, with the tables of lines 14-80. */
  method BuildActions(data: GeneratorData) returns (actions: seq<Action>)
    modifies data
    ensures data.features == old(data.features) + Expansion(data.answers)
    ensures MergedOutputs(PackageDependencies, PackageDevDependencies, data.features, data.dependencies, data.devDependencies)
    ensures |actions| == 1 + |data.features| && actions[0] == BaseAction(data.answers.destination)
    ensures forall i :: 0 <= i < |data.features| ==> actions[i + 1] == FeatureAction(data.answers.destination, data.features[i])
  {
    ExpandFeatures(data);
    assert "default" in PackageDependencies;
    StoreMerged(data, PackageDependencies, PackageDevDependencies);
    actions := FeatureActions(data.answers.destination, data.features);
  }

  /** Lines 268-342 for any pair of tables: merge, sort and store the two lists. */
  method StoreMerged(data: GeneratorData, table: Table, devTable: Table)
    requires "default" in table
    modifies data
    ensures data.features == old(data.features)
    ensures MergedOutputs(table, devTable, data.features, data.dependencies, data.devDependencies)
  {
    var deps, devDeps := MergeDependencies(table, devTable, data.features);
    data.dependencies := SortedValues(deps);
    data.devDependencies := SortedValues(devDeps);
  }

  /**
   * The sorted lists name each package once; every dependency is the entry
   * of the last listing naming it; no devDependency shares a name with a
   * dependency, and each is the last dev listing's entry.
   */
  lemma MergedOutputsEntries(table: Table, devTable: Table, features: seq<string>,
                             deps: seq<Dependency>, devDeps: seq<Dependency>)
    requires MergedOutputs(table, devTable, features, deps, devDeps)
    ensures UniqueNames(deps) && UniqueNames(devDeps)
    ensures forall d :: d in deps ==> LastListing(table, ["default"] + features, d.name) == Some(d)
    ensures forall e :: e in devDeps ==> LastListing(devTable, ["default"] + features, e.name) == Some(e)
    ensures forall d, e :: d in deps && e in devDeps ==> d.name != e.name
  {
    var m := Dependencies(table, features);
    var dm := DevDependencies(devTable, features, m);
    MergedMapsUnique(table, devTable, features);
    PermutationUnique(m, deps);
    PermutationUnique(dm, devDeps);
    forall d | d in deps ensures LastListing(table, ["default"] + features, d.name) == Some(d) {
      assert d in multiset(m);
      FindEntry(m, d);
      DependenciesLastWins(table, features, d.name);
    }
    forall e | e in devDeps
      ensures Find(m, e.name).None? && LastListing(devTable, ["default"] + features, e.name) == Some(e)
    {
      assert e in multiset(dm);
      FindEntry(dm, e);
      if Find(m, e.name).Some? {
        DevDependenciesDisjoint(devTable, features, m, e.name);
      }
      DevDependenciesLastWins(devTable, features, m, e.name);
    }
    forall d, e | d in deps && e in devDeps ensures d.name != e.name {
      assert d in multiset(m);
      FindEntry(m, d);
    }
  }

  /** Every package some listing names does end up in one of the two lists. */
  lemma MergedOutputsComplete(table: Table, devTable: Table, features: seq<string>,
                              deps: seq<Dependency>, devDeps: seq<Dependency>, name: string)
    requires MergedOutputs(table, devTable, features, deps, devDeps)
    ensures LastListing(table, ["default"] + features, name).Some? ==>
      exists d :: d in deps && d.name == name
    ensures LastListing(devTable, ["default"] + features, name).Some? ==>
      exists d :: (d in deps || d in devDeps) && d.name == name
  {
    var m := Dependencies(table, features);
    var dm := DevDependencies(devTable, features, m);
    DependenciesLastWins(table, features, name);
    var f := Find(m, name);
    if f.Some? {
      assert f.value in multiset(deps);
    } else {
      DevDependenciesLastWins(devTable, features, m, name);
      var g := Find(dm, name);
      if g.Some? {
        assert g.value in multiset(devDeps);
      }
    }
  }
}
