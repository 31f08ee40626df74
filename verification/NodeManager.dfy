/**
  * The local authority for peers: the database of rows, the live outbound connectors, and the
  * inbound connections that a row has authorised. All requests run under one lock.
  */
module NodeManager {
  import opened Bytes
  import opened Text
  import opened NodeConfig

  datatype Connector = Connector(id: nat, connection: PrimaryConnection)

  datatype Request =
    | NodeInfo(name: string)
    | NodeAdd(config: Config)
    | NodeUpdate(name: string, update: Update)
    | NodeSetEnabled(name: string, enabled: bool)
    | NodeRemove(name: string)
    | Register(authorized: Config)  // an inbound handshake that was authorised by this row

  /** What the world decides about one request: database failures and the next random revision. */
  datatype Env = Env(readFails: bool, writeFails: bool, revision: string)

  predicate Served(c: Config) {
    c.enabled && c.role == Primary
  }

  /** No two rows share a key: the database enforces it. */
  predicate KeysUnique(db: map<string, Config>) {
    forall m, n :: m in db && n in db && m != n ==> db[m].key != db[n].key
  }

  // ----- the invariant, over values -----

  type Rows = map<string, Config>

  ghost predicate RowOk(p: Parsers, n: string, c: Config, revisions: set<string>) {
    c.name == n && Normal(p, c) && c.revision in revisions
  }

  ghost predicate RowsOk(p: Parsers, db: Rows, revisions: set<string>) {
    && Lawful(p)
    && (forall n :: n in db ==> RowOk(p, n, db[n], revisions))
    && KeysUnique(db)
  }

  ghost predicate ConnectorOk(p: Parsers, c: Config, k: Connector, stopped: set<nat>, nextId: nat) {
    TryFrom(p, c) == Some(k.connection) && k.id < nextId && k.id !in stopped
  }

  function LiveIds(connectors: map<string, Connector>): (ids: set<nat>) {
    set n | n in connectors :: connectors[n].id
  }

  /** The live connectors are exactly the enabled primary rows, each spawned from its current row. */
  ghost predicate ConnectorsOk(
    p: Parsers, db: Rows, connectors: map<string, Connector>, stopped: set<nat>, nextId: nat)
  {
    && RunningOk(p, db, connectors, stopped, nextId)
    && AccountedFor(connectors, stopped, nextId)
  }

  /** Every connector that was ever spawned is live or has been stopped. */
  ghost predicate AccountedFor(connectors: map<string, Connector>, stopped: set<nat>, nextId: nat) {
    forall id :: 0 <= id < nextId ==> id in stopped || id in LiveIds(connectors)
  }

  ghost predicate RunningOk(
    p: Parsers, db: Rows, connectors: map<string, Connector>, stopped: set<nat>, nextId: nat)
  {
    && (forall n :: n in connectors <==> n in db && Served(db[n]))
    && (forall n :: n in connectors ==> ConnectorOk(p, db[n], connectors[n], stopped, nextId))
    && (forall m, n :: m in connectors && n in connectors && m != n ==> connectors[m].id != connectors[n].id)
    && (forall id :: id in stopped ==> id < nextId)
  }

  /** A live inbound connection was authorised by the row as it is now. */
  ghost predicate InboundOk(db: Rows, inbound: Rows) {
    forall n :: n in inbound ==>
      n in db && inbound[n] == db[n] && db[n].enabled && db[n].role == Secondary
  }

  function StopId(connectors: map<string, Connector>, stopped: set<nat>, name: string): (r: set<nat>) {
    if name in connectors then stopped + {connectors[name].id} else stopped
  }

  lemma CommitKeepsRows(p: Parsers, db: Rows, revisions: set<string>, c: Config, db': Rows)
    requires RowsOk(p, db, revisions) && Normal(p, c) && db' == db[c.name := c] && KeysUnique(db')
    ensures RowsOk(p, db', revisions + {c.revision})
  {
    hide Validated, Lawful, KeysUnique;
  }

  lemma CommitKeepsConnectors(p: Parsers, db: Rows, connectors: map<string, Connector>, stopped: set<nat>, nextId: nat,
                              c: Config, connectors': map<string, Connector>, nextId': nat)
    requires ConnectorsOk(p, db, connectors, stopped, nextId)
    requires Served(c) ==> TryFrom(p, c).Some?
    requires nextId' == nextId + (if Served(c) then 1 else 0)
    requires connectors' == if Served(c) then connectors[c.name := Connector(nextId, TryFrom(p, c).value)]
                            else connectors - {c.name}
    ensures ConnectorsOk(p, db[c.name := c], connectors', StopId(connectors, stopped, c.name), nextId')
  {
    hide TryFrom, RunningOk, AccountedFor;
    CommitKeepsRunning(p, db, connectors, stopped, nextId, c, connectors', nextId');
    assert connectors' - {c.name} == connectors - {c.name};
    AllAccountedFor(connectors, stopped, nextId, c.name, connectors');
    if Served(c) {
      NewIsAccountedFor(connectors', StopId(connectors, stopped, c.name), nextId, c.name);
    }
  }

  lemma CommitKeepsRunning(p: Parsers, db: Rows, connectors: map<string, Connector>, stopped: set<nat>, nextId: nat,
                           c: Config, connectors': map<string, Connector>, nextId': nat)
    requires RunningOk(p, db, connectors, stopped, nextId)
    requires Served(c) ==> TryFrom(p, c).Some?
    requires nextId' == nextId + (if Served(c) then 1 else 0)
    requires connectors' == if Served(c) then connectors[c.name := Connector(nextId, TryFrom(p, c).value)]
                            else connectors - {c.name}
    ensures RunningOk(p, db[c.name := c], connectors', StopId(connectors, stopped, c.name), nextId')
  {
    hide TryFrom;
  }

  lemma NewIsAccountedFor(connectors: map<string, Connector>, stopped: set<nat>, id: nat, name: string)
    requires AccountedFor(connectors, stopped, id) && name in connectors && connectors[name].id == id
    ensures AccountedFor(connectors, stopped, id + 1)
  {
    assert id in LiveIds(connectors);
  }

  /** Stopping what ran under a name accounts for its connector; the others stay live. */
  lemma AllAccountedFor(connectors: map<string, Connector>, stopped: set<nat>, nextId: nat, name: string,
                        connectors': map<string, Connector>)
    requires AccountedFor(connectors, stopped, nextId)
    requires connectors' - {name} == connectors - {name}
    ensures AccountedFor(connectors', StopId(connectors, stopped, name), nextId)
  {
    var stopped' := StopId(connectors, stopped, name);
    forall id | 0 <= id < nextId ensures id in stopped' || id in LiveIds(connectors') {
      if id !in stopped {
        var n :| n in connectors && connectors[n].id == id;
        if n != name {
          assert n in connectors - {name} && (connectors - {name})[n] == connectors[n];
          assert n in connectors' - {name} && connectors'[n] == connectors[n];
        }
      }
    }
  }

  lemma RemoveKeepsConnectors(p: Parsers, db: Rows, connectors: map<string, Connector>, stopped: set<nat>, nextId: nat,
                              name: string)
    requires ConnectorsOk(p, db, connectors, stopped, nextId)
    ensures ConnectorsOk(p, db - {name}, connectors - {name}, StopId(connectors, stopped, name), nextId)
  {
    hide TryFrom, AccountedFor;
    assert (connectors - {name}) - {name} == connectors - {name};
    AllAccountedFor(connectors, stopped, nextId, name, connectors - {name});
  }

  lemma RemoveKeepsRows(p: Parsers, db: Rows, revisions: set<string>, name: string)
    requires RowsOk(p, db, revisions)
    ensures RowsOk(p, db - {name}, revisions)
  {
    hide Lawful;
  }

  lemma NormalPrimary(p: Parsers, c: Config)
    requires Normal(p, c)
    ensures Served(c) ==> TryFrom(p, c).Some?
  {
    if Served(c) {
      NormalPrimaryConnects(p, c);
    }
  }

  // ----- what a request asks for -----

  datatype Change = Rejected | Keep | Put(row: Config) | Drop(name: string)

  function PutIfChanged(before: Config, after: Config, revision: string): (r: Change) {
    if after == before then Keep else Put(after.(revision := revision))
  }

  /** The change to the rows that a request means, with a new revision for every effective change. */
  function Intended(p: Parsers, db: Rows, request: Request, revision: string): (r: Change) {
    match request
    case NodeInfo(name) => if name in db then Keep else Rejected
    case NodeAdd(config) =>
      (match Validated(p, config.(enabled := true))
       case None => Rejected
       case Some(c) => if c.name in db then Rejected else Put(c.(revision := revision)))
    case NodeUpdate(name, update) =>
      if name !in db then Rejected
      else
        (match Applied(p, update, db[name])
         case None => Rejected
         case Some(c) => PutIfChanged(db[name], c, revision))
    case NodeSetEnabled(name, enabled) =>
      if name !in db then Rejected else PutIfChanged(db[name], db[name].(enabled := enabled), revision)
    case NodeRemove(name) => if name in db then Drop(name) else Rejected
    case Register(authorized) => if Current(db, authorized) then Keep else Rejected
  }

  function After(db: Rows, change: Change): (r: Rows) {
    match change
    case Put(row) => db[row.name := row]
    case Drop(name) => db - {name}
    case _ => db
  }

  /** The row is still exactly what it was when it was read. */
  predicate Current(db: Rows, c: Config) {
    c.name in db && db[c.name] == c
  }

  // ----- requests one after the other -----

  /** Rows, and the inbound connections that they have authorised. */
  datatype Book = Book(db: Rows, inbound: Rows)

  /** Which requests succeed: those that mean something, on a database that obliges. */
  predicate Accepts(p: Parsers, b: Book, request: Request, env: Env) {
    var change := Intended(p, b.db, request, env.revision);
    && !env.readFails && change != Rejected
    && (change.Put? ==> !env.writeFails && KeysUnique(After(b.db, change)))
    && (change.Drop? ==> !env.writeFails)
    && (request.Register? ==> request.authorized.name !in b.inbound)
  }

  /** A change revokes what its row had authorised; a registration adds a connection. */
  function InboundAfter(inbound: Rows, request: Request, change: Change): (r: Rows) {
    match change
    case Put(row) => inbound - {row.name}
    case Drop(name) => inbound - {name}
    case _ => if request.Register? then inbound[request.authorized.name := request.authorized] else inbound
  }

  function NextBook(p: Parsers, b: Book, request: Request, env: Env): (r: Book) {
    var change := Intended(p, b.db, request, env.revision);
    if Accepts(p, b, request, env) then Book(After(b.db, change), InboundAfter(b.inbound, request, change)) else b
  }

  function BookAt(p: Parsers, b: Book, requests: seq<Request>, envs: seq<Env>, n: nat): (r: Book)
    requires n <= |requests| == |envs|
  {
    if n == 0 then b else NextBook(p, BookAt(p, b, requests, envs, n - 1), requests[n - 1], envs[n - 1])
  }

  /** A row that a change puts has normal form, its old name, and the new revision. */
  lemma PutIsNormal(p: Parsers, db: Rows, revisions: set<string>, request: Request, revision: string)
    requires RowsOk(p, db, revisions)
    ensures var change := Intended(p, db, request, revision);
      change.Put? ==> Normal(p, change.row) && change.row.revision == revision
  {
    hide KeysUnique, Validated, Lawful, Applied;
    match request
    case NodeAdd(config) =>
      if Validated(p, config.(enabled := true)).Some? {
        ValidatedIsNormal(p, config.(enabled := true));
        var c := Validated(p, config.(enabled := true)).value;
        NormalIgnoresState(p, c, c.enabled, revision);
      }
    case NodeUpdate(name, update) =>
      if name in db && Applied(p, update, db[name]).Some? {
        AppliedIsNormal(p, update, db[name]);
        var c := Applied(p, update, db[name]).value;
        NormalIgnoresState(p, c, c.enabled, revision);
      }
    case NodeSetEnabled(name, enabled) =>
      if name in db {
        assert RowOk(p, name, db[name], revisions);
        NormalIgnoresState(p, db[name], enabled, revision);
      }
    case _ =>
  }

  // ----- what requests do, said without computing it -----

  function NameOf(request: Request): (name: string) {
    match request
    case NodeAdd(config) => config.name
    case Register(authorized) => authorized.name
    case NodeInfo(name) => name
    case NodeUpdate(name, _) => name
    case NodeSetEnabled(name, _) => name
    case NodeRemove(name) => name
  }

  /** The row as an update asks for it, before normalisation. */
  function Asked(c: Config, u: Update): (r: Config) {
    Config(c.name, c.role, if u.key.None? then c.key else u.key.value, if u.url.None? then c.url else u.url,
           if u.asName.None? then c.asName else u.asName, c.enabled, c.revision)
  }

  /** The row stored for a given one: key and endpoint in normal form, everything else as given. */
  predicate StoredFor(p: Parsers, given: Config, row: Config) {
    && Acceptable(p, given) && p.parseKey(Trim(given.key)) == Some(row.key)
    && row == given.(key := row.key, url := row.url, revision := row.revision)
    && match given.role
       case Secondary => row.url == None
       case Primary => row.url == Some(TrimSlashes(p.parseUrl(given.url.value).value.text))
  }

  /** Every other row is what it was. */
  ghost predicate OthersKept(db: Rows, db': Rows, name: string) {
    forall n :: n != name ==> (n in db' <==> n in db) && (n in db ==> db'[n] == db[n])
  }

  /** A row that is the same but for its revision keeps that; any other gets the new one. */
  predicate Revised(before: Config, after: Config, revision: string) {
    after.revision == if after == before.(revision := after.revision) then before.revision else revision
  }

  /** What a request has done to the rows when it has succeeded. */
  ghost predicate Fulfilled(p: Parsers, request: Request, revision: string, db: Rows, db': Rows) {
    OthersKept(db, db', NameOf(request)) &&
    match request
    case NodeInfo(name) => name in db && name in db' && db'[name] == db[name]
    case Register(authorized) => authorized.name in db && db[authorized.name] == authorized && db' == db
    case NodeRemove(name) => name in db && name !in db'
    case NodeSetEnabled(name, enabled) =>
      && name in db && name in db' && db'[name].enabled == enabled && Revised(db[name], db'[name], revision)
      && db'[name] == db[name].(enabled := db'[name].enabled, revision := db'[name].revision)
    case NodeAdd(config) =>
      && config.name !in db && config.name in db' && db'[config.name].enabled
      && StoredFor(p, config.(enabled := true), db'[config.name]) && db'[config.name].revision == revision
    case NodeUpdate(name, update) =>
      && name in db && name in db' && StoredFor(p, Asked(db[name], update), db'[name])
      && Revised(db[name], db'[name], revision)
      && (update.key.Some? || update.url.Some? || update.asName.Some?)
  }

  lemma OthersAreKept(db: Rows, row: Config)
    ensures OthersKept(db, db[row.name := row], row.name) && OthersKept(db, db, row.name)
  {
  }

  lemma NothingElseChanges(db: Rows, name: string)
    ensures OthersKept(db, db - {name}, name) && OthersKept(db, db, name)
  {
  }

  /** A row that validation gives is the one stored for what was given, whatever its revision. */
  lemma ValidatedIsStored(p: Parsers, given: Config, revision: string)
    requires Validated(p, given).Some?
    ensures StoredFor(p, given, Validated(p, given).value) && Validated(p, given).value.revision == given.revision
    ensures StoredFor(p, given, Validated(p, given).value.(revision := revision))
    ensures Validated(p, given).value.name == given.name && Validated(p, given).value.enabled == given.enabled
  {
    hide Validated, Acceptable;
    ValidatedIff(p, given);
  }

  lemma IntendedIsFulfilled(p: Parsers, db: Rows, revisions: set<string>, request: Request, revision: string)
    requires RowsOk(p, db, revisions) && Intended(p, db, request, revision) != Rejected
    requires revision !in revisions
    ensures Fulfilled(p, request, revision, db, After(db, Intended(p, db, request, revision)))
  {
    hide RowsOk, Validated, Acceptable, StoredFor, OthersKept;
    match request
    case NodeAdd(config) =>
      var row := Validated(p, config.(enabled := true)).value.(revision := revision);
      ValidatedIsStored(p, config.(enabled := true), revision);
      OthersAreKept(db, row);
    case NodeUpdate(name, update) =>
      RowIsNamed(p, db, revisions, name);
      UpdateIsFulfilled(p, db, name, update, revision);
    case NodeSetEnabled(name, enabled) =>
      RowIsNamed(p, db, revisions, name);
      OthersAreKept(db, db[name].(enabled := enabled, revision := revision));
    case _ =>
      NothingElseChanges(db, NameOf(request));
  }

  lemma UpdateIsFulfilled(p: Parsers, db: Rows, name: string, update: Update, revision: string)
    requires name in db && db[name].name == name && Intended(p, db, NodeUpdate(name, update), revision) != Rejected
    ensures Fulfilled(p, NodeUpdate(name, update), revision, db,
                      After(db, Intended(p, db, NodeUpdate(name, update), revision)))
  {
    hide Validated, Acceptable, StoredFor, OthersKept;
    assert Applied(p, update, db[name]) == Validated(p, Asked(db[name], update));
    var row := Validated(p, Asked(db[name], update)).value;
    ValidatedIsStored(p, Asked(db[name], update), revision);
    OthersAreKept(db, row.(revision := revision));
  }

  lemma RowIsNamed(p: Parsers, db: Rows, revisions: set<string>, name: string)
    requires RowsOk(p, db, revisions) && name in db
    ensures db[name].name == name && db[name].revision in revisions
  {
    assert RowOk(p, name, db[name], revisions);
  }

  /** No other row has this key. */
  predicate KeyFree(p: Parsers, db: Rows, name: string, key: string) {
    forall n :: n in db && n != name ==> p.parseKey(Trim(key)) != Some(db[n].key)
  }

  /** Which requests the database and the rows allow. */
  predicate Grantable(p: Parsers, b: Book, request: Request, env: Env) {
    !env.readFails &&
    match request
    case NodeInfo(name) => name in b.db
    case Register(authorized) =>
      authorized.name in b.db && b.db[authorized.name] == authorized && authorized.name !in b.inbound
    case NodeRemove(name) => name in b.db && !env.writeFails
    case NodeSetEnabled(name, enabled) => name in b.db && (b.db[name].enabled == enabled || !env.writeFails)
    case NodeAdd(config) =>
      && Acceptable(p, config.(enabled := true)) && config.name !in b.db
      && !env.writeFails && KeyFree(p, b.db, config.name, config.key)
    case NodeUpdate(name, update) =>
      && name in b.db && (update.key.Some? || update.url.Some? || update.asName.Some?)
      && Acceptable(p, Asked(b.db[name], update))
      && (StoredFor(p, Asked(b.db[name], update), b.db[name])
          || (!env.writeFails && KeyFree(p, b.db, name, Asked(b.db[name], update).key)))
  }

  /** Exactly the grantable requests are accepted. */
  lemma AcceptsIff(p: Parsers, b: Book, revisions: set<string>, request: Request, env: Env)
    requires RowsOk(p, b.db, revisions)
    ensures Accepts(p, b, request, env) <==> Grantable(p, b, request, env)
  {
    hide RowsOk, Validated, Acceptable, KeysUnique, StoredFor;
    match request
    case NodeAdd(config) =>
      AcceptsAddIff(p, b, revisions, config, env);
    case NodeUpdate(name, update) =>
      if name in b.db {
        AcceptsUpdateIff(p, b, revisions, name, update, env);
      }
    case NodeSetEnabled(name, enabled) =>
      if name in b.db {
        RowIsNamed(p, b.db, revisions, name);
        KeysStayUnique(p, b.db, revisions, b.db[name].(enabled := enabled, revision := env.revision));
        OwnKeyFree(p, b.db, revisions, name);
      }
    case _ =>
  }

  lemma AcceptsAddIff(p: Parsers, b: Book, revisions: set<string>, config: Config, env: Env)
    requires RowsOk(p, b.db, revisions)
    ensures Accepts(p, b, NodeAdd(config), env) <==> Grantable(p, b, NodeAdd(config), env)
  {
    hide RowsOk, Validated, Acceptable, KeysUnique;
    ValidatedIff(p, config.(enabled := true));
    if Acceptable(p, config.(enabled := true)) && config.name !in b.db {
      KeysStayUnique(p, b.db, revisions, Validated(p, config.(enabled := true)).value.(revision := env.revision));
    }
  }

  lemma AcceptsUpdateIff(p: Parsers, b: Book, revisions: set<string>, name: string, update: Update, env: Env)
    requires RowsOk(p, b.db, revisions) && name in b.db
    ensures Accepts(p, b, NodeUpdate(name, update), env) <==> Grantable(p, b, NodeUpdate(name, update), env)
  {
    hide RowsOk, Validated, Acceptable, KeysUnique;
    var before, asked := b.db[name], Asked(b.db[name], update);
    RowIsNamed(p, b.db, revisions, name);
    ValidatedIff(p, asked);
    assert update.key.Some? || update.url.Some? || update.asName.Some? ==>
      Applied(p, update, before) == Validated(p, asked);
    if Acceptable(p, asked) {
      ValidatedIsStored(p, asked, before.revision);
      assert StoredFor(p, asked, before) <==> before == Validated(p, asked).value;
      KeysStayUnique(p, b.db, revisions, Validated(p, asked).value.(revision := env.revision));
    }
  }

  lemma KeysStayUnique(p: Parsers, db: Rows, revisions: set<string>, row: Config)
    requires RowsOk(p, db, revisions)
    ensures KeysUnique(db[row.name := row]) <==> forall n :: n in db && n != row.name ==> db[n].key != row.key
  {
    hide Lawful;
    var db' := db[row.name := row];
    if forall n :: n in db && n != row.name ==> db[n].key != row.key {
      forall m, n | m in db' && n in db' && m != n ensures db'[m].key != db'[n].key {
      }
    } else {
      var n :| n in db && n != row.name && db[n].key == row.key;
      assert n in db' && row.name in db' && db'[n].key == db'[row.name].key;
    }
  }

  lemma OwnKeyFree(p: Parsers, db: Rows, revisions: set<string>, name: string)
    requires RowsOk(p, db, revisions) && name in db
    ensures forall n :: n in db && n != name ==> db[n].key != db[name].key
  {
    hide Lawful;
  }

  lemma AcceptedChange(p: Parsers, b: Book, request: Request, env: Env)
    ensures Accepts(p, b, request, env) ==> Intended(p, b.db, request, env.revision) != Rejected
    ensures request.Register? ==> Intended(p, b.db, request, env.revision) in {Keep, Rejected}
  {
  }

  /** A change is to the row that the request names, and changes the rows. */
  lemma ChangeNames(p: Parsers, db: Rows, revisions: set<string>, request: Request, revision: string)
    requires RowsOk(p, db, revisions) && revision !in revisions
    ensures match Intended(p, db, request, revision)
      case Put(row) => row.name == NameOf(request) && db[row.name := row] != db && !request.Register?
      case Drop(name) => name == NameOf(request) && db - {name} != db && !request.Register?
      case _ => true
  {
    hide KeysUnique, Validated, Lawful;
    match Intended(p, db, request, revision)
    case Put(row) =>
      if row.name in db {
        assert RowOk(p, row.name, db[row.name], revisions);
      }
      PutNamed(p, db, revisions, request, revision);
      assert db[row.name := row][row.name] == row;
    case Drop(name) =>
      assert name in db && name !in db - {name};
    case _ =>
  }

  lemma PutNamed(p: Parsers, db: Rows, revisions: set<string>, request: Request, revision: string)
    requires RowsOk(p, db, revisions) && Intended(p, db, request, revision).Put?
    ensures Intended(p, db, request, revision).row.name == NameOf(request)
    ensures Intended(p, db, request, revision).row.revision == revision && !request.Register?
  {
    hide KeysUnique, Validated, Lawful, Acceptable;
    match request
    case NodeAdd(config) =>
      ValidatedIff(p, config.(enabled := true));
    case NodeUpdate(name, update) =>
      assert RowOk(p, name, db[name], revisions);
      ValidatedIff(p, Asked(db[name], update));
    case NodeSetEnabled(name, enabled) =>
      assert RowOk(p, name, db[name], revisions);
    case _ =>
  }

  lemma SetAsAsked(p: Parsers, request: Request, revision: string, db: Rows, db': Rows)
    requires request.NodeSetEnabled? && Fulfilled(p, request, revision, db, db')
    ensures request.name in db' && db'[request.name].enabled == request.enabled
  {
  }

  lemma IdleWhenDisabled(p: Parsers, db: Rows, connectors: map<string, Connector>, stopped: set<nat>, nextId: nat,
                         inbound: Rows, name: string)
    requires ConnectorsOk(p, db, connectors, stopped, nextId) && InboundOk(db, inbound)
    requires name in db && !db[name].enabled
    ensures name !in connectors && name !in inbound
  {
  }

  /** Once a row value is no longer current it never becomes current again, whatever is done to the rows. */
  lemma StaleStaysStale(db: Rows, change: Change, c: Config, revisions: set<string>)
    requires !Current(db, c) && c.revision in revisions
    requires change.Put? ==> change.row.revision !in revisions
    ensures !Current(After(db, change), c)
  {
  }

  // ----- the manager -----

  class NodeManager {
    const parsers: Parsers
    var db: Rows
    var connectors: map<string, Connector>
    var stopped: set<nat>                   // connectors that were told to stop
    var nextId: nat
    var inbound: Rows                       // live inbound connections, with the row that authorised them
    ghost var revisions: set<string>        // every revision ever handed out

    ghost predicate Valid()
      reads this
    {
      && RowsOk(parsers, db, revisions)
      && ConnectorsOk(parsers, db, connectors, stopped, nextId)
      && InboundOk(db, inbound)
    }

    constructor (parsers: Parsers, db: Rows, ghost revisions: set<string>)
      requires RowsOk(parsers, db, revisions)
      ensures this.parsers == parsers && this.db == db && this.revisions == revisions
      ensures connectors == map[] && inbound == map[] && nextId == 0 && stopped == {}
    {
      this.parsers, this.db, this.revisions := parsers, db, revisions;
      connectors, inbound, nextId, stopped := map[], map[], 0, {};
    }

    /** Stop the outbound connector and revoke the inbound connection of a name. */
    method Stop(name: string)
      modifies this`connectors, this`stopped, this`inbound
      ensures connectors == old(connectors) - {name} && inbound == old(inbound) - {name}
      ensures stopped == StopId(old(connectors), old(stopped), name)
    {
      if name in connectors {
        stopped := stopped + {connectors[name].id};
      }
      connectors := connectors - {name};
      inbound := inbound - {name};
    }

    /** Bring the running state in line with a row that was just written; on a stored row this cannot fail. */
    method Reconcile(config: Config) returns (ok: bool)
      requires Normal(parsers, config)
      modifies this`connectors, this`stopped, this`inbound, this`nextId
      ensures ok && (Served(config) ==> TryFrom(parsers, config).Some?)
      ensures nextId == old(nextId) + (if Served(config) then 1 else 0)
      ensures connectors == if Served(config)
        then old(connectors)[config.name := Connector(old(nextId), TryFrom(parsers, config).value)]
        else old(connectors) - {config.name}
      ensures stopped == StopId(old(connectors), old(stopped), config.name)
      ensures inbound == old(inbound) - {config.name}
    {
      hide TryFrom, Validated;
      NormalPrimary(parsers, config);
      Stop(config.name);
      if config.enabled && config.role == Primary {
        var connection := TryFrom(parsers, config);
        if connection.None? {
          return false;
        }
        connectors := connectors[config.name := Connector(nextId, connection.value)];
        nextId := nextId + 1;
      }
      ok := true;
    }

    /** Write one row and reconcile; a failed write changes neither side. */
    method Commit(config: Config, env: Env) returns (ok: bool)
      requires Valid() && Normal(parsers, config) && config.revision == env.revision
      modifies this
      ensures Valid()
      ensures ok <==> !env.writeFails && KeysUnique(old(db)[config.name := config])
      ensures !ok ==> unchanged(this)
      ensures ok ==> db == old(db)[config.name := config] && revisions == old(revisions) + {env.revision}
      ensures ok ==> inbound == old(inbound) - {config.name}
      ensures ok ==> stopped == StopId(old(connectors), old(stopped), config.name)
      ensures ok ==> connectors - {config.name} == old(connectors) - {config.name}
    {
      hide TryFrom, Validated, KeysUnique, RowsOk, ConnectorsOk;
      if env.writeFails || !KeysUnique(db[config.name := config]) {
        return false;
      }
      CommitKeepsRows(parsers, db, revisions, config, db[config.name := config]);
      db := db[config.name := config];
      revisions := revisions + {env.revision};
      ok := Reconcile(config);
      CommitKeepsConnectors(parsers, old(db), old(connectors), old(stopped), old(nextId), config, connectors, nextId);
    }

    /** Remove one row and stop whatever ran for it. */
    method Remove(name: string, env: Env) returns (ok: bool)
      requires Valid()
      modifies this
      ensures Valid() && revisions == old(revisions)
      ensures ok <==> !env.writeFails
      ensures !ok ==> unchanged(this)
      ensures ok ==> db == old(db) - {name} && inbound == old(inbound) - {name}
      ensures ok ==> stopped == StopId(old(connectors), old(stopped), name)
      ensures ok ==> connectors == old(connectors) - {name}
    {
      hide RowsOk, ConnectorsOk;
      if env.writeFails {
        return false;
      }
      RemoveKeepsRows(parsers, db, revisions, name);
      RemoveKeepsConnectors(parsers, db, connectors, stopped, nextId, name);
      db := db - {name};
      Stop(name);
      ok := true;
    }

    /** The rows outside the change keep their connectors; the changed one's are stopped or replaced. */
    twostate predicate RunningFollows(change: Change)
      reads this
    {
      match change
      case Put(row) =>
        && inbound == old(inbound) - {row.name}
        && stopped == StopId(old(connectors), old(stopped), row.name)
        && connectors - {row.name} == old(connectors) - {row.name}
      case Drop(name) =>
        && inbound == old(inbound) - {name}
        && stopped == StopId(old(connectors), old(stopped), name)
        && connectors == old(connectors) - {name}
      case _ => connectors == old(connectors) && stopped == old(stopped)
    }

    /** The body of `Handle`, with the lock held, against the change that the request means. */
    method HandleLocked(request: Request, env: Env) returns (ok: bool)
      requires Valid() && env.revision !in revisions
      requires request.Register? ==> request.authorized.enabled && request.authorized.role == Secondary
      modifies this
      ensures Valid() && revisions <= old(revisions) + {env.revision} && old(revisions) <= revisions
      ensures ok <==> Accepts(parsers, old(Book(db, inbound)), request, env)
      ensures !ok ==> unchanged(this)
      ensures Book(db, inbound) == NextBook(parsers, old(Book(db, inbound)), request, env)
      ensures ok ==> RunningFollows(Intended(parsers, old(db), request, env.revision))
    {
      hide Validated, Applied, TryFrom, RowsOk, ConnectorsOk;
      PutIsNormal(parsers, db, revisions, request, env.revision);
      match request {
        case NodeInfo(name) =>
          ok := !env.readFails && name in db;
        case NodeAdd(given) =>
          var config := Validate(parsers, given.(enabled := true));
          if config.None? || env.readFails || config.value.name in db {
            return false;
          }
          ok := Commit(config.value.(revision := env.revision), env);
        case NodeUpdate(name, update) =>
          if env.readFails || name !in db {
            return false;
          }
          var config := Apply(parsers, update, db[name]);
          if config.None? {
            return false;
          }
          ok := true;
          if config.value != db[name] {
            ok := Commit(config.value.(revision := env.revision), env);
          }
        case NodeSetEnabled(name, enabled) =>
          if env.readFails || name !in db {
            return false;
          }
          ok := true;
          if db[name].enabled != enabled {
            ok := Commit(db[name].(enabled := enabled, revision := env.revision), env);
          }
        case NodeRemove(name) =>
          if env.readFails || name !in db {
            return false;
          }
          ok := Remove(name, env);
        case Register(authorized) =>
          if env.readFails || !Current(db, authorized) || authorized.name in inbound {
            return false;
          }
          inbound := inbound[authorized.name := authorized];
          ok := true;
      }
    }

    /**
      * Any request, with any failures: rows, connectors and inbound connections stay in step, a
      * request that fails changes nothing, and one that succeeds makes exactly the change it means.
      */
    method Handle(request: Request, env: Env) returns (ok: bool)
      requires Valid() && env.revision !in revisions
      requires request.Register? ==> request.authorized.enabled && request.authorized.role == Secondary
      modifies this
      ensures Valid() && revisions <= old(revisions) + {env.revision} && old(revisions) <= revisions
      ensures !ok ==> unchanged(this)
      ensures ok <==> Accepts(parsers, old(Book(db, inbound)), request, env)
      ensures Book(db, inbound) == NextBook(parsers, old(Book(db, inbound)), request, env)
      // in terms of the request alone
      ensures ok <==> Grantable(parsers, old(Book(db, inbound)), request, env)
      ensures ok ==> Fulfilled(parsers, request, env.revision, old(db), db)
      ensures ok && request.NodeSetEnabled? && !request.enabled ==>
        request.name !in connectors && request.name !in inbound
      ensures ok && !request.Register? && db != old(db) ==>
        inbound == old(inbound) - {NameOf(request)} && StopId(old(connectors), old(stopped), NameOf(request)) <= stopped
      ensures ok && request.Register? ==>
        inbound == old(inbound)[request.authorized.name := request.authorized] && connectors == old(connectors)
      ensures ok && !request.Register? && db == old(db) ==>
        connectors == old(connectors) && inbound == old(inbound) && stopped == old(stopped)
    {
      hide RowsOk, ConnectorsOk, InboundOk, Accepts, Intended, Grantable, Fulfilled;
      ghost var rows, known, book := db, revisions, Book(db, inbound);
      AcceptsIff(parsers, book, known, request, env);
      AcceptedChange(parsers, book, request, env);
      ok := HandleLocked(request, env);
      if ok {
        ChangeNames(parsers, rows, known, request, env.revision);
        IntendedIsFulfilled(parsers, rows, known, request, env.revision);
        if request.NodeSetEnabled? && !request.enabled {
          SetAsAsked(parsers, request, env.revision, rows, db);
          IdleWhenDisabled(parsers, db, connectors, stopped, nextId, inbound, request.name);
        }
      }
    }

    /** One stored row at start-up. */
    method RestoreRow(config: Config, ghost done: Rows)
      requires Normal(parsers, config) && inbound == map[]
      requires ConnectorsOk(parsers, done, connectors, stopped, nextId)
      modifies this`connectors, this`stopped, this`inbound, this`nextId
      ensures inbound == map[] && ConnectorsOk(parsers, done[config.name := config], connectors, stopped, nextId)
    {
      hide TryFrom, ConnectorsOk, Normal;
      ghost var before, stoppedBefore, idBefore := connectors, stopped, nextId;
      var reconciled := Reconcile(config);
      CommitKeepsConnectors(parsers, done, before, stoppedBefore, idBefore, config, connectors, nextId);
    }

    /** At start-up every stored row is reconciled, and the invariant holds from then on. */
    method Restore(env: Env) returns (ok: bool)
      requires RowsOk(parsers, db, revisions)
      requires connectors == map[] && inbound == map[] && stopped == {} && nextId == 0
      modifies this`connectors, this`stopped, this`inbound, this`nextId
      ensures ok <==> !env.readFails
      ensures ok ==> Valid()
    {
      hide RowsOk, ConnectorsOk, Normal;
      if env.readFails {
        return false;
      }
      NothingRuns(parsers);
      var todo := db.Keys;
      ghost var done: Rows := map[];
      assert db - todo == map[];
      while todo != {}
        invariant todo <= db.Keys && done == db - todo
        invariant ConnectorsOk(parsers, done, connectors, stopped, nextId)
        invariant inbound == map[]
        decreases todo
      {
        var name :| name in todo;
        StoredRow(parsers, db, revisions, name);
        RestoreRow(db[name], done);
        DoneGrows(db, todo, name);
        done := done[name := db[name]];
        todo := todo - {name};
      }
      assert done == db;
      ok := true;
    }

    /** Any sequence of requests and failures after start-up. */
    method Serve(requests: seq<Request>, envs: seq<Env>) returns (results: seq<bool>)
      requires Valid() && |envs| == |requests|
      requires forall i :: 0 <= i < |envs| ==> envs[i].revision !in revisions
      requires forall i, j :: 0 <= i < j < |envs| ==> envs[i].revision != envs[j].revision
      requires forall i :: 0 <= i < |requests| && requests[i].Register? ==>
        requests[i].authorized.enabled && requests[i].authorized.role == Secondary
      modifies this
      ensures Valid()
      // every answer, and in the end every row and connection, is what the requests before it make it
      ensures |results| == |requests| && Answers(parsers, old(Book(db, inbound)), requests, envs, results)
      ensures Book(db, inbound) == BookAt(parsers, old(Book(db, inbound)), requests, envs, |requests|)
      // a row value that was replaced at some point is never again what authorises a connection
      ensures StaleKept(old(db), db, old(revisions))
    {
      hide RowsOk, ConnectorsOk, InboundOk, Accepts, NextBook, BookAt, Answers, StaleKept, Intended, RunningFollows;
      results := [];
      ghost var b0, known := Book(db, inbound), revisions;
      NothingAnswered(parsers, b0, requests, envs, known);
      while |results| < |requests|
        invariant |results| <= |requests| && Valid() && known <= revisions
        invariant Book(db, inbound) == BookAt(parsers, b0, requests, envs, |results|)
        invariant Answers(parsers, b0, requests, envs, results)
        invariant forall i :: |results| <= i < |envs| ==> envs[i].revision !in revisions
        invariant StaleKept(b0.db, db, known)
      {
        var i := |results|;
        ghost var b := Book(db, inbound);
        NextKeepsStale(parsers, b0.db, b, revisions, requests[i], envs[i], known);
        AnswersGrow(parsers, b0, requests, envs, results);
        var ok := Handle(requests[i], envs[i]);
        results := results + [ok];
      }
    }
  }

  /** Each answer is decided by the rows and connections that the requests before it leave. */
  predicate Answers(p: Parsers, b: Book, requests: seq<Request>, envs: seq<Env>, results: seq<bool>)
    requires |requests| == |envs|
  {
    |results| <= |requests| &&
    forall i :: 0 <= i < |results| ==>
      results[i] == Accepts(p, BookAt(p, b, requests, envs, i), requests[i], envs[i])
  }

  lemma AnswersGrow(p: Parsers, b: Book, requests: seq<Request>, envs: seq<Env>, results: seq<bool>)
    requires |requests| == |envs| && Answers(p, b, requests, envs, results) && |results| < |requests|
    ensures var n := |results|;
      Answers(p, b, requests, envs, results + [Accepts(p, BookAt(p, b, requests, envs, n), requests[n], envs[n])])
    ensures BookAt(p, b, requests, envs, |results| + 1) ==
      NextBook(p, BookAt(p, b, requests, envs, |results|), requests[|results|], envs[|results|])
  {
    hide Accepts, NextBook;
  }

  /** Of the row values with known revisions, none that was not current has become current. */
  ghost predicate StaleKept(db: Rows, db': Rows, known: set<string>) {
    forall c: Config :: c.revision in known && !Current(db, c) ==> !Current(db', c)
  }

  lemma NothingAnswered(p: Parsers, b: Book, requests: seq<Request>, envs: seq<Env>, known: set<string>)
    requires |requests| == |envs|
    ensures Answers(p, b, requests, envs, []) && StaleKept(b.db, b.db, known)
    ensures BookAt(p, b, requests, envs, 0) == b
  {
  }

  lemma NextKeepsStale(p: Parsers, db0: Rows, b: Book, revisions: set<string>, request: Request, env: Env,
                       known: set<string>)
    requires RowsOk(p, b.db, revisions) && env.revision !in revisions && known <= revisions
    requires StaleKept(db0, b.db, known)
    ensures StaleKept(db0, NextBook(p, b, request, env).db, known)
  {
    hide RowsOk, Intended, KeysUnique, After, Accepts;
    PutIsNormal(p, b.db, revisions, request, env.revision);
    var change := Intended(p, b.db, request, env.revision);
    forall c: Config | c.revision in known && !Current(db0, c) ensures !Current(NextBook(p, b, request, env).db, c) {
      StaleStaysStale(b.db, change, c, revisions);
    }
  }

  lemma NothingRuns(p: Parsers)
    ensures ConnectorsOk(p, map[], map[], {}, 0)
  {
  }

  lemma DoneGrows(db: Rows, todo: set<string>, name: string)
    requires todo <= db.Keys && name in todo
    ensures (db - todo)[name := db[name]] == db - (todo - {name})
  {
  }

  lemma StoredRow(p: Parsers, db: Rows, revisions: set<string>, name: string)
    requires RowsOk(p, db, revisions) && name in db
    ensures db[name].name == name && Normal(p, db[name])
  {
    assert RowOk(p, name, db[name], revisions);
  }
}
