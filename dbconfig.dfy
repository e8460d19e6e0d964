/**
 * The database configuration of the backend: the rewrite of DATABASE_URL
 * into the URL the asyncpg driver accepts, the SSL connect argument, and the
 * module state that `init_db` sets and `get_async_session` checks.
 */
module DbConfig {
  import opened Wrappers
  import opened Text

  const SyncScheme: string := "postgresql://"
  const AsyncScheme: string := "postgresql+asyncpg://"
  const RenderHost: string := "render.com"
  const QuerySslMode: string := "?sslmode="
  const ParamSslMode: string := "&sslmode="

  datatype ConfigError =
    | MissingDatabaseUrl   // raised when DATABASE_URL is absent or empty
    | NotInitialized       // raised when a session is requested before `init_db` has run

  /** The scheme step: a `postgresql://` URL gets every `postgresql://` replaced by `postgresql+asyncpg://`. */
  function ToAsyncScheme(url: string): (r: string)
    ensures StartsWith(url, SyncScheme) ==>
      r == AsyncScheme + ReplaceAll(url[|SyncScheme|..], SyncScheme, AsyncScheme)
    ensures !StartsWith(url, SyncScheme) ==> r == url
  {
    if StartsWith(url, SyncScheme) then
      ReplaceAllAtStart(url, SyncScheme, AsyncScheme);
      ReplaceAll(url, SyncScheme, AsyncScheme)
    else
      url
  }

  /**
   * The Render step: a URL mentioning `render.com` loses everything from its
   * first `?sslmode=`, or failing that from its first `&sslmode=`.
   */
  function StripSslMode(url: string): (r: string)
    ensures StartsWith(url, r)
    ensures !Occurs(url, RenderHost) ==> r == url
    ensures Occurs(url, RenderHost) ==> !Occurs(r, QuerySslMode)
    ensures Occurs(url, RenderHost) && Occurs(url, QuerySslMode) ==>
      FirstAt(url, QuerySslMode, |r|)
    ensures Occurs(url, RenderHost) && !Occurs(url, QuerySslMode) && Occurs(url, ParamSslMode) ==>
      FirstAt(url, ParamSslMode, |r|)
    ensures Occurs(url, RenderHost) && !Occurs(url, QuerySslMode) && !Occurs(url, ParamSslMode) ==>
      r == url
  {
    if Contains(url, RenderHost) then
      if Contains(url, QuerySslMode) then Before(url, QuerySslMode)
      else if Contains(url, ParamSslMode) then
        var r := Before(url, ParamSslMode);
        assert !Occurs(r, QuerySslMode) by {
          forall j | OccursAt(r, QuerySslMode, j) ensures false {
            OccursInPrefix(url, |r|, QuerySslMode, j);
          }
        }
        r
      else url
    else
      url
  }

  /** ASYNC_DATABASE_URL computed from DATABASE_URL; an absent or empty value is refused. */
  function Normalize(url: Option<string>): (r: Result<string, ConfigError>)
    ensures r.Err? <==> url.None? || url.value == []
    ensures r.Err? ==> r.error == MissingDatabaseUrl
    ensures r.Ok? ==> r.value == StripSslMode(ToAsyncScheme(url.value))
  {
    if url.None? || url.value == [] then
      Err(MissingDatabaseUrl)
    else
      Ok(StripSslMode(ToAsyncScheme(url.value)))
  }

  /** A scheme prefix that does not contain the first character of `sep` ends before any occurrence of `sep`. */
  lemma OccurrenceAfterPrefix(s: string, prefix: string, sep: string, j: int)
    requires StartsWith(s, prefix) && sep != [] && sep[0] !in prefix
    requires OccursAt(s, sep, j)
    ensures j >= |prefix|
  {
  }

  lemma NoSslMarkerInScheme()
    ensures QuerySslMode[0] !in AsyncScheme && ParamSslMode[0] !in AsyncScheme
  {
  }

  /** A cut of `w` at an index not inside its leading scheme keeps the scheme. */
  lemma CutKeepsScheme(w: string, r: string)
    requires StartsWith(w, AsyncScheme) && StartsWith(w, r) && |r| >= |AsyncScheme|
    ensures StartsWith(r, AsyncScheme)
  {
  }

  /**
   * A `postgresql://` URL always ends up with the `postgresql+asyncpg://`
   * scheme: the SSL-mode cut can never reach into the scheme.
   */
  lemma NormalizeKeepsAsyncScheme(url: string)
    requires StartsWith(url, SyncScheme)
    ensures Normalize(Some(url)).Ok?
    ensures StartsWith(Normalize(Some(url)).value, AsyncScheme)
  {
    var w := ToAsyncScheme(url);
    ReplaceAllAtStart(url, SyncScheme, AsyncScheme);
    var r := StripSslMode(w);
    if r != w {
      NoSslMarkerInScheme();
      if Occurs(w, QuerySslMode) {
        OccurrenceAfterPrefix(w, AsyncScheme, QuerySslMode, |r|);
      } else {
        OccurrenceAfterPrefix(w, AsyncScheme, ParamSslMode, |r|);
      }
      CutKeepsScheme(w, r);
    }
  }

  /**
   * The scheme step replaces all occurrences, not only the leading one: a
   * second `postgresql://` in the URL makes the result longer than a prefix swap.
   */
  lemma ToAsyncSchemeIsNotPrefixSwap(url: string)
    requires StartsWith(url, SyncScheme)
    ensures |ToAsyncScheme(url)| >= |AsyncScheme + url[|SyncScheme|..]|
    ensures Occurs(url[|SyncScheme|..], SyncScheme) ==>
      ToAsyncScheme(url) != AsyncScheme + url[|SyncScheme|..]
  {
    ReplaceAllGrows(url[|SyncScheme|..], SyncScheme, AsyncScheme);
  }

  /**
   * `postgresql+asyncpg://` cannot recreate `postgresql://`: it does not
   * contain it, none of its tails begins it, and its first character `p`
   * appears nowhere else in `postgresql://`.
   */
  lemma AsyncSchemeCannotRecreateSyncScheme()
    ensures AsyncScheme[0] !in SyncScheme[1..]
    ensures !Occurs(AsyncScheme, SyncScheme)
    ensures forall i | 0 <= i < |AsyncScheme| && |AsyncScheme| - i < |SyncScheme| ::
      !StartsWith(SyncScheme, AsyncScheme[i..])
  {
    forall i | 0 <= i ensures !OccursAt(AsyncScheme, SyncScheme, i) {
      if i + |SyncScheme| <= |AsyncScheme| {
        assert AsyncScheme[i] != 'p' || AsyncScheme[i + 10] != ':';
      }
    }
    forall i | 0 <= i < |AsyncScheme| && |AsyncScheme| - i < |SyncScheme|
      ensures !StartsWith(SyncScheme, AsyncScheme[i..])
    {
      assert AsyncScheme[i] != 'p' || AsyncScheme[i + 1] != 'o';
    }
  }

  /** After the scheme step no `postgresql://` is left anywhere in a `postgresql://` URL. */
  lemma ToAsyncSchemeLeavesNoSyncScheme(url: string)
    requires StartsWith(url, SyncScheme)
    ensures !Occurs(ToAsyncScheme(url), SyncScheme)
  {
    AsyncSchemeCannotRecreateSyncScheme();
    ReplaceAllLeavesNoPattern(url, SyncScheme, AsyncScheme);
  }

  /** The normalised URL of a `postgresql://` URL contains no `postgresql://` at all. */
  lemma NormalizeLeavesNoSyncScheme(url: string)
    requires StartsWith(url, SyncScheme)
    ensures Normalize(Some(url)).Ok?
    ensures !Occurs(Normalize(Some(url)).value, SyncScheme)
  {
    var w := ToAsyncScheme(url);
    var r := StripSslMode(w);
    ToAsyncSchemeLeavesNoSyncScheme(url);
    forall j | OccursAt(r, SyncScheme, j) ensures false {
      assert r == w[..|r|];
      OccursInPrefix(w, |r|, SyncScheme, j);
    }
  }

  /**
   * With `render.com` in the scheme-rewritten URL, the result holds no
   * `?sslmode=` and ends where the first `?sslmode=`, or else the first
   * `&sslmode=`, began.
   */
  lemma NormalizeWithRender(url: string)
    requires url != [] && Occurs(ToAsyncScheme(url), RenderHost)
    ensures Normalize(Some(url)).Ok?
    ensures !Occurs(Normalize(Some(url)).value, QuerySslMode)
    ensures Occurs(ToAsyncScheme(url), QuerySslMode) ==>
      FirstAt(ToAsyncScheme(url), QuerySslMode, |Normalize(Some(url)).value|)
    ensures !Occurs(ToAsyncScheme(url), QuerySslMode) && Occurs(ToAsyncScheme(url), ParamSslMode) ==>
      FirstAt(ToAsyncScheme(url), ParamSslMode, |Normalize(Some(url)).value|)
  {
  }

  /** Without `render.com` the result is the scheme-rewritten URL itself. */
  lemma NormalizeWithoutRender(url: string)
    requires url != [] && !Occurs(ToAsyncScheme(url), RenderHost)
    ensures Normalize(Some(url)) == Ok(ToAsyncScheme(url))
  {
  }

  /** The `connect_args` given to the engine: `ssl` is set, to true, exactly when the URL mentions `render.com`. */
  function ConnectArgs(asyncUrl: string): (args: map<string, bool>)
    ensures "ssl" in args <==> Occurs(asyncUrl, RenderHost)
    ensures forall k :: k in args ==> k == "ssl" && args[k]
  {
    if Contains(asyncUrl, RenderHost) then map["ssl" := true] else map[]
  }

  /** The async engine, reduced to what this model observes: its URL and its connect arguments. */
  datatype Engine = Engine(url: string, connectArgs: map<string, bool>)

  datatype SessionFactory = SessionFactory(engine: Engine)

  datatype Session = Session(factory: SessionFactory)

  /** The module-level state of the configuration: the URL and the globals `init_db` assigns. */
  class Database {
    const asyncUrl: string
    var engine: Option<Engine>
    var sessionFactory: Option<SessionFactory>
    var disposals: nat   // how many times `close_db` has disposed the engine

    /** Module import: the URL is normalised and both globals start as None. */
    constructor (asyncUrl: string)
      ensures this.asyncUrl == asyncUrl
      ensures engine == None && sessionFactory == None && disposals == 0
    {
      this.asyncUrl := asyncUrl;
      engine := None;
      sessionFactory := None;
      disposals := 0;
    }

    /** `init_db`: creates the engine on the URL, with SSL for Render, and the session factory over it. */
    method InitDb()
      modifies this
      ensures engine == Some(Engine(asyncUrl, ConnectArgs(asyncUrl)))
      ensures sessionFactory == Some(SessionFactory(engine.value))
      ensures disposals == old(disposals)
    {
      var connectArgs: map<string, bool> := map[];
      if Contains(asyncUrl, RenderHost) {
        connectArgs := connectArgs["ssl" := true];
      }
      engine := Some(Engine(asyncUrl, connectArgs));
      sessionFactory := Some(SessionFactory(engine.value));
    }

    /** `close_db`: disposes the engine if there is one; neither global is reset. */
    method CloseDb()
      modifies this`disposals
      ensures disposals == old(disposals) + (if engine.Some? then 1 else 0)
    {
      if engine.Some? {
        disposals := disposals + 1;
      }
    }

    /** `get_async_session`: fails until `init_db` has set the session factory. */
    method GetAsyncSession() returns (r: Result<Session, ConfigError>)
      ensures r.Err? <==> sessionFactory.None?
      ensures r.Err? ==> r.error == NotInitialized
      ensures r.Ok? ==> r.value.factory == sessionFactory.value
    {
      if sessionFactory.None? {
        return Err(NotInitialized);
      }
      return Ok(Session(sessionFactory.value));
    }
  }

  /** Importing the configuration module: fails on a missing URL, otherwise yields uninitialised state. */
  method Load(databaseUrl: Option<string>) returns (r: Result<Database, ConfigError>)
    ensures r.Err? <==> Normalize(databaseUrl).Err?
    ensures r.Err? ==> r.error == MissingDatabaseUrl
    ensures r.Ok? ==> fresh(r.value) && r.value.asyncUrl == Normalize(databaseUrl).value
    ensures r.Ok? ==> r.value.engine == None && r.value.sessionFactory == None
  {
    var url := Normalize(databaseUrl);
    if url.Err? {
      return Err(url.error);
    }
    var db := new Database(url.value);
    return Ok(db);
  }
}
