/** Peer configuration rows: validation, normalisation and updates. */
module NodeConfig {
  import opened Bytes
  import opened Text

  datatype Role = Primary | Secondary  // the remote peer's role

  datatype Config = Config(
    name: string,
    role: Role,
    key: string,
    url: Option<string>,
    asName: Option<string>,
    enabled: bool,
    revision: string)

  datatype Url = Url(scheme: string, hasHost: bool, username: string, hasPassword: bool,
                     hasQuery: bool, hasFragment: bool, text: string)

  /** The key and URL parsers; a parsed key is given by its canonical line. */
  datatype Parsers = Parsers(parseKey: string -> Option<string>, parseUrl: string -> Option<Url>)

  function TrimSlashes(s: string): (r: string) {
    if s != [] && s[|s| - 1] == '/' then TrimSlashes(s[..|s| - 1]) else s
  }

  predicate IsBaseUrl(u: Url) {
    && (u.scheme == "http" || u.scheme == "https") && u.hasHost
    && u.username == [] && !u.hasPassword && !u.hasQuery && !u.hasFragment
  }

  /** What is assumed of the parsers: their own output parses back to itself. */
  ghost predicate Lawful(p: Parsers) {
    && (forall s :: p.parseKey(s).Some? ==>
          p.parseKey(Trim(p.parseKey(s).value)) == p.parseKey(s))
    && (forall s :: p.parseUrl(s).Some? && IsBaseUrl(p.parseUrl(s).value) ==>
          var text := TrimSlashes(p.parseUrl(s).value.text);
          && p.parseUrl(text).Some? && IsBaseUrl(p.parseUrl(text).value)
          && TrimSlashes(p.parseUrl(text).value.text) == text)
  }

  predicate ValidName(name: string) {
    && name != [] && Utf8Size(name) <= 256
    && forall i :: 0 <= i < |name| ==> !IsControl(name[i]) && !IsWhitespace(name[i])
  }

  /** Checks a row and normalises its key and URL; any defect is an error. */
  method Validate(p: Parsers, config: Config) returns (r: Option<Config>)
    ensures r == Validated(p, config)
  {
    var c := config;
    if !ValidName(c.name) {
      return None;
    }
    var line := p.parseKey(Trim(c.key));
    if line.None? {
      return None;
    }
    c := c.(key := line.value);
    match c.role {
      case Primary =>
        if c.asName.None? || !ValidName(c.asName.value) {
          return None;
        }
        if c.url.None? {
          return None;
        }
        var url := p.parseUrl(c.url.value);
        if url.None? || !IsBaseUrl(url.value) {
          return None;
        }
        c := c.(url := Some(TrimSlashes(url.value.text)));
      case Secondary =>
        if c.url.Some? || c.asName.Some? {
          return None;
        }
    }
    r := Some(c);
  }

  function Validated(p: Parsers, c: Config): (r: Option<Config>) {
    var key := p.parseKey(Trim(c.key));
    if !ValidName(c.name) || key.None? then None
    else if c.role == Secondary then
      if c.url.Some? || c.asName.Some? then None else Some(c.(key := key.value))
    else if c.asName.None? || !ValidName(c.asName.value) || c.url.None? then None
    else
      match p.parseUrl(c.url.value)
      case None => None
      case Some(u) =>
        if IsBaseUrl(u) then Some(c.(key := key.value, url := Some(TrimSlashes(u.text)))) else None
  }

  /** Slashes come off the end of a URL, and nothing else. */
  lemma {:induction false} TrimSlashesIs(s: string)
    ensures TrimSlashes(s) <= s && (TrimSlashes(s) != [] ==> TrimSlashes(s)[|TrimSlashes(s)| - 1] != '/')
    ensures forall k :: |TrimSlashes(s)| <= k < |s| ==> s[k] == '/'
    decreases |s|
  {
    if s != [] && s[|s| - 1] == '/' {
      TrimSlashesIs(s[..|s| - 1]);
    }
  }

  /** A visible name of 1 to 256 bytes. */
  predicate Named(name: string) {
    1 <= Utf8Size(name) <= 256 && forall c :: c in name ==> !IsControl(c) && !IsWhitespace(c)
  }

  /** What a row must have: a key, and for a primary an endpoint and a name to advertise, else neither. */
  predicate Acceptable(p: Parsers, c: Config) {
    && Named(c.name) && p.parseKey(Trim(c.key)).Some?
    && match c.role
       case Primary =>
         && c.asName.Some? && Named(c.asName.value)
         && c.url.Some? && p.parseUrl(c.url.value).Some? && Endpoint(p.parseUrl(c.url.value).value)
       case Secondary => c.asName.None? && c.url.None?
  }

  /** An absolute HTTP URL without credentials, query or fragment. */
  predicate Endpoint(u: Url) {
    u.scheme in {"http", "https"} && u.hasHost && u.username == "" && !(u.hasPassword || u.hasQuery || u.hasFragment)
  }

  /**
    * Exactly the acceptable rows are accepted; the key is replaced by its canonical line, the
    * endpoint of a primary by its text without trailing slashes, and nothing else changes.
    */
  lemma ValidatedIff(p: Parsers, c: Config)
    ensures Validated(p, c).Some? <==> Acceptable(p, c)
    ensures Acceptable(p, c) ==>
      var d := Validated(p, c).value;
      && d == c.(key := d.key, url := d.url)
      && p.parseKey(Trim(c.key)) == Some(d.key)
      && (c.role == Secondary ==> d.url == None)
      && (c.role == Primary ==> d.url == Some(TrimSlashes(p.parseUrl(c.url.value).value.text)))
  {
    NamedIsValid(c.name);
    if c.asName.Some? {
      NamedIsValid(c.asName.value);
    }
  }

  lemma NamedIsValid(name: string)
    ensures ValidName(name) <==> Named(name)
  {
    hide IsControl, IsWhitespace;
    assert forall i :: 0 <= i < |name| ==> name[i] in name;
    assert Utf8Size("") == 0;
  }

  /** A row in normal form validates to itself. */
  predicate Normal(p: Parsers, c: Config) {
    Validated(p, c) == Some(c)
  }

  /** Validation is idempotent, and touches nothing but key and URL. */
  lemma ValidatedIsNormal(p: Parsers, c: Config)
    requires Lawful(p) && Validated(p, c).Some?
    ensures Normal(p, Validated(p, c).value)
    ensures Validated(p, c).value == c.(key := Validated(p, c).value.key, url := Validated(p, c).value.url)
  {
    var d := Validated(p, c).value;
    assert p.parseKey(Trim(d.key)) == Some(d.key);
  }

  /** Neither switching a row nor giving it a new revision affects its validity. */
  lemma NormalIgnoresState(p: Parsers, c: Config, enabled: bool, revision: string)
    requires Normal(p, c)
    ensures Normal(p, c.(enabled := enabled, revision := revision))
  {
  }

  datatype Update = Update(key: Option<string>, url: Option<string>, asName: Option<string>)

  /** An update must name something, overwrites what it names, and is validated as a whole. */
  function Applied(p: Parsers, u: Update, c: Config): (r: Option<Config>) {
    if u.key.None? && u.url.None? && u.asName.None? then None
    else
      Validated(p, c.(key := if u.key.Some? then u.key.value else c.key,
                      url := if u.url.Some? then u.url else c.url,
                      asName := if u.asName.Some? then u.asName else c.asName))
  }

  method Apply(p: Parsers, u: Update, config: Config) returns (r: Option<Config>)
    ensures r == Applied(p, u, config)
  {
    if u.key.None? && u.url.None? && u.asName.None? {
      return None;
    }
    var c := config;
    if u.key.Some? {
      c := c.(key := u.key.value);
    }
    if u.url.Some? {
      c := c.(url := u.url);
    }
    if u.asName.Some? {
      c := c.(asName := u.asName);
    }
    r := Validate(p, c);
  }

  lemma AppliedIsNormal(p: Parsers, u: Update, c: Config)
    requires Lawful(p) && Applied(p, u, c).Some?
    ensures Normal(p, Applied(p, u, c).value)
    ensures Applied(p, u, c).value.name == c.name && Applied(p, u, c).value.role == c.role
  {
    ValidatedIsNormal(p, c.(key := if u.key.Some? then u.key.value else c.key,
                            url := if u.url.Some? then u.url else c.url,
                            asName := if u.asName.Some? then u.asName else c.asName));
  }

  /** Parameters of an outbound connector. */
  datatype PrimaryConnection = PrimaryConnection(name: string, asName: string, url: string, key: string)

  function TryFrom(p: Parsers, c: Config): (r: Option<PrimaryConnection>) {
    if c.role != Primary then None
    else
      match Validated(p, c)
      case None => None
      case Some(d) =>
        if d.asName.Some? && d.url.Some? then Some(PrimaryConnection(d.name, d.asName.value, d.url.value, d.key))
        else None
  }

  /** A stored primary row always yields a connection, made of exactly its own fields. */
  lemma NormalPrimaryConnects(p: Parsers, c: Config)
    requires Normal(p, c) && c.role == Primary
    ensures c.asName.Some? && c.url.Some?
    ensures TryFrom(p, c) == Some(PrimaryConnection(c.name, c.asName.value, c.url.value, c.key))
  {
  }
}
