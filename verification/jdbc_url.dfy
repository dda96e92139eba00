/** The PostgreSQL connection-string parsing of the administration
    credentials: host, port and database name read out of a JDBC URL of the
    form `jdbc:postgresql://host:port/name?params`. A `null` URL is `None`. */
module JdbcUrl {
  import opened Outcomes
  import opened Text

  const Scheme: string := "jdbc:postgresql://"
  const DefaultHost: string := "localhost"
  const DefaultPort: string := "5432"

  /** The URL carries the PostgreSQL scheme. */
  predicate HasScheme(url: Option<string>)
  {
    url.Some? && StartsWith(url.value, Scheme)
  }

  /** What follows the scheme: `host:port/name...`. */
  function Authority(url: Option<string>): (r: string)
    requires HasScheme(url)
    ensures url.value == Scheme + r
  {
    url.value[|Scheme|..]
  }

  /** The host: the text before the first ':', or, without a ':', before the
      first '/', or the whole remainder. Anything without the scheme is
      "localhost". */
  function ExtractHost(url: Option<string>): (r: string)
    ensures !HasScheme(url) ==> r == DefaultHost
    ensures HasScheme(url) ==> r <= Authority(url) && ':' !in r
    ensures HasScheme(url) && ':' in Authority(url) ==> Authority(url)[|r|] == ':'
    ensures HasScheme(url) && ':' !in Authority(url)
            ==> '/' !in r && (|r| == |Authority(url)| || Authority(url)[|r|] == '/')
  {
    if !HasScheme(url) then DefaultHost
    else
      var rest := Authority(url);
      var colon := IndexOf(rest, ':');
      if colon == -1 then
        var slash := IndexOf(rest, '/');
        if slash == -1 then rest else rest[..slash]
      else rest[..colon]
  }

  /** The port: the text after the first ':' up to the next '/', or to the
      end. Without the scheme or without a ':' it is "5432". */
  function ExtractPort(url: Option<string>): (r: string)
    ensures !HasScheme(url) || ':' !in Authority(url) ==> r == DefaultPort
    ensures HasScheme(url) && ':' in Authority(url)
            ==> var rest := Authority(url);
                var start := IndexOf(rest, ':') + 1;
                start + |r| <= |rest| && r == rest[start..start + |r|] && '/' !in r
                && (start + |r| == |rest| || rest[start + |r|] == '/')
  {
    if !HasScheme(url) then DefaultPort
    else
      var rest := Authority(url);
      var colon := IndexOf(rest, ':');
      if colon == -1 then DefaultPort
      else
        var slash := IndexOfFrom(rest, '/', colon);
        if slash == -1 then rest[colon + 1..] else rest[colon + 1..slash]
  }

  /** The database name: the text after the last '/', cut at the first '?'.
      It is empty for `null`, for a URL without '/', and for one ending in '/'. */
  function ExtractDbName(url: Option<string>): (r: string)
    ensures url.None? ==> r == []
    ensures url.Some? && ('/' !in url.value || url.value[|url.value| - 1] == '/') ==> r == []
    ensures url.Some? ==> '/' !in r && '?' !in r
    ensures url.Some? && '/' in url.value
            ==> var tail := url.value[LastIndexOf(url.value, '/') + 1..];
                r <= tail && (|r| == |tail| || tail[|r|] == '?')
  {
    if url.None? then []
    else
      var s := url.value;
      var slash := LastIndexOf(s, '/');
      if slash == -1 || slash == |s| - 1 then []
      else
        var name := s[slash + 1..];
        var query := IndexOf(name, '?');
        if query == -1 then name else name[..query]
  }

  /** The URL the extractors are written against. */
  function PostgresUrl(host: string, port: string, name: string): string
  {
    Scheme + host + ":" + port + "/" + name
  }

  /** The host is everything before the first ':' after the scheme. */
  lemma HostBeforeColon(host: string, tail: string)
    requires ':' !in host
    ensures ExtractHost(Some(Scheme + host + ":" + tail)) == host
  {
    var url := Scheme + host + ":" + tail;
    var rest := host + ":" + tail;
    assert url == Scheme + rest;
    assert Authority(Some(url)) == rest;
    assert rest[..|host|] == host;
    IndexOfAt(rest, ':', |host|);
  }

  /** The port is everything between that ':' and the next '/'. */
  lemma PortBetweenColonAndSlash(host: string, port: string, tail: string)
    requires ':' !in host && '/' !in port
    ensures ExtractPort(Some(Scheme + host + ":" + port + "/" + tail)) == port
  {
    var url := Scheme + host + ":" + port + "/" + tail;
    var rest := host + ":" + port + "/" + tail;
    assert url == Scheme + rest;
    assert Authority(Some(url)) == rest;
    assert rest[..|host|] == host;
    IndexOfAt(rest, ':', |host|);
    var slash := |host| + 1 + |port|;
    assert rest[slash] == '/';
    assert rest[|host| + 1..slash] == port;
    forall k | |host| <= k < slash
      ensures rest[k] != '/'
    {
      if k > |host| { assert rest[k] == port[k - |host| - 1]; }
    }
    assert IndexOfFrom(rest, '/', |host|) == slash;
  }

  /** The database name is everything after the last '/', when it holds no
      '/' or '?'. */
  lemma NameAfterLastSlash(front: string, name: string)
    requires '/' !in name && '?' !in name
    ensures ExtractDbName(Some(front + "/" + name)) == name
  {
    var url := front + "/" + name;
    assert url[|front|] == '/';
    assert url[|front| + 1..] == name;
    assert LastIndexOf(url, '/') == |front|;
  }

  /** Reading back a URL built from a host without ':', a port without '/'
      and a name without '/' or '?' gives those three parts. */
  lemma UrlRoundTrip(host: string, port: string, name: string)
    requires ':' !in host && '/' !in port && '/' !in name && '?' !in name
    ensures ExtractHost(Some(PostgresUrl(host, port, name))) == host
    ensures ExtractPort(Some(PostgresUrl(host, port, name))) == port
    ensures ExtractDbName(Some(PostgresUrl(host, port, name))) == name
  {
    var url := PostgresUrl(host, port, name);
    assert url == Scheme + host + ":" + (port + "/" + name);
    HostBeforeColon(host, port + "/" + name);
    PortBetweenColonAndSlash(host, port, name);
    assert url == (Scheme + host + ":" + port) + "/" + name;
    NameAfterLastSlash(Scheme + host + ":" + port, name);
  }

  /** The credentials configuration: one JDBC URL, user name and password per
      database, the URLs possibly unset. */
  datatype CredentialsConfig = CredentialsConfig(
    materialsDbUrl: Option<string>, materialsDbUsername: string, materialsDbPassword: string,
    usersDbUrl: Option<string>, usersDbUsername: string, usersDbPassword: string)

  /** Where one database lives and how to log in to it. */
  datatype Endpoint = Endpoint(host: string, port: string, name: string, username: string, password: string)

  /** The getters of the materials database, all read from its own URL. */
  function MaterialsEndpoint(c: CredentialsConfig): (e: Endpoint)
    ensures e.username == c.materialsDbUsername && e.password == c.materialsDbPassword
    ensures c.materialsDbUrl == c.usersDbUrl
            ==> (e.host == UsersEndpoint(c).host && e.port == UsersEndpoint(c).port
                 && e.name == UsersEndpoint(c).name)
  {
    Endpoint(ExtractHost(c.materialsDbUrl), ExtractPort(c.materialsDbUrl), ExtractDbName(c.materialsDbUrl),
             c.materialsDbUsername, c.materialsDbPassword)
  }

  /** The getters of the users database, all read from its own URL. */
  function UsersEndpoint(c: CredentialsConfig): (e: Endpoint)
    ensures e.username == c.usersDbUsername && e.password == c.usersDbPassword
  {
    Endpoint(ExtractHost(c.usersDbUrl), ExtractPort(c.usersDbUrl), ExtractDbName(c.usersDbUrl),
             c.usersDbUsername, c.usersDbPassword)
  }

  /** The materials getters depend on the materials URL only, never on the
      users URL. */
  lemma MaterialsEndpointIgnoresUsersUrl(c: CredentialsConfig, u: Option<string>)
    ensures MaterialsEndpoint(c.(usersDbUrl := u)) == MaterialsEndpoint(c)
  {
  }

  /** A configuration whose URLs are well-formed PostgreSQL URLs yields the
      parts each URL was built from. */
  lemma EndpointsFromWellFormedUrls(c: CredentialsConfig,
                                    mh: string, mp: string, mn: string,
                                    uh: string, up: string, un: string)
    requires ':' !in mh && '/' !in mp && '/' !in mn && '?' !in mn
    requires ':' !in uh && '/' !in up && '/' !in un && '?' !in un
    requires c.materialsDbUrl == Some(PostgresUrl(mh, mp, mn))
    requires c.usersDbUrl == Some(PostgresUrl(uh, up, un))
    ensures MaterialsEndpoint(c) == Endpoint(mh, mp, mn, c.materialsDbUsername, c.materialsDbPassword)
    ensures UsersEndpoint(c) == Endpoint(uh, up, un, c.usersDbUsername, c.usersDbPassword)
  {
    UrlRoundTrip(mh, mp, mn);
    UrlRoundTrip(uh, up, un);
  }
}
