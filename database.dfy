/** The package-level store of internal/database.go: a lazily opened
    connection `db` and a process-wide `historyCache` loaded once from the
    database and then kept in memory.

    The driver is an oracle fixed for the life of the process: what opening
    the database, creating the table and the history query yield. `log.Fatal`
    ends the process; the model records it in `exited`, after which nothing
    runs. */
module Database {
  import opened Common
  import opened Messages

  /** An open `*sqlite.DB`; the handle tells connections apart. */
  datatype Conn = Conn(handle: nat)

  /** What the driver answers: `sqlite.Open`, the `CREATE TABLE` statement's
      error, and the history query's rows. */
  datatype Driver = Driver(open: Result<Conn, string>, createTable: Option<string>, historyQuery: Result<Rows, string>)

  /** `retrieveHistoryFromDB`'s answer: the query's error, else the first
      row that fails to scan, else every row in order. `rows.Err()` is never
      consulted. */
  function LoadHistory(query: Result<Rows, string>): Result<seq<Message>, string> {
    match query
    case Err(e) => Err(e)
    case Ok(rows) => if AllScanned(rows.scans) then Ok(ScannedMessages(rows.scans)) else Err(FirstScanError(rows.scans))
  }

  /** The package globals, and whether the process is still alive. */
  datatype Globals = Globals(db: Option<Conn>, cache: seq<Message>, exited: bool)

  /** The globals `initDB` leaves: an open or schema failure exits before
      `db` is set; a history failure exits after `db` is set and the cache
      has been overwritten with nil; otherwise `db` is the connection and
      the cache holds the stored history. */
  function Initialized(driver: Driver, cache: seq<Message>): Globals {
    match driver.open
    case Err(_) => Globals(None, cache, true)
    case Ok(conn) =>
      if driver.createTable.Some? then Globals(None, cache, true)
      else match LoadHistory(driver.historyQuery)
        case Err(_) => Globals(Some(conn), [], true)
        case Ok(history) => Globals(Some(conn), history, false)
  }

  /** The globals after `GetDB`: initialised on the first call only. */
  function AfterGetDB(driver: Driver, db: Option<Conn>, cache: seq<Message>): Globals {
    if db.Some? then Globals(db, cache, false) else Initialized(driver, cache)
  }

  /** `GetDB` initialises at most once: once it has returned a connection,
      calling it again changes nothing and returns the same connection. */
  lemma GetDBIdempotent(driver: Driver, db: Option<Conn>, cache: seq<Message>)
    requires !AfterGetDB(driver, db, cache).exited
    ensures var g := AfterGetDB(driver, db, cache);
      && g.db.Some?
      && AfterGetDB(driver, g.db, g.cache) == g
      && (db.Some? ==> g.db == db)
      && (db.None? ==> g.db == Some(driver.open.value) && LoadHistory(driver.historyQuery) == Ok(g.cache))
  {
  }

  class Store {
    /** `db` */
    var db: Option<Conn>
    /** `historyCache` */
    var historyCache: seq<Message>
    /** `log.Fatal` has ended the process. */
    var exited: bool
    const driver: Driver
    /** How many times `initDB` has started. */
    ghost var inits: nat

    /** `initDB` runs at most once, and a live process has a connection
        exactly when it has run. */
    ghost predicate Valid()
      reads this
    {
      && inits <= 1
      && (db.Some? ==> inits == 1 && driver.open == Ok(db.value))
      && (!exited ==> (db.Some? <==> inits == 1))
    }

    function State(): Globals
      reads this
    {
      Globals(db, historyCache, exited)
    }

    /** The process starts with no connection and a nil cache. */
    constructor (driver: Driver)
      ensures Valid() && !exited && this.driver == driver
      ensures db == None && historyCache == [] && inits == 0
    {
      db, historyCache, exited := None, [], false;
      this.driver := driver;
      inits := 0;
    }

    /** `GetDB`: the first call runs `initDB`; every later call returns the
        connection it stored. The connection is returned only if the
        process survives. */
    method GetDB() returns (conn: Option<Conn>)
      requires Valid() && !exited
      modifies this
      decreases if db.None? then 1 else 0, 2
      ensures Valid() && inits == 1
      ensures State() == AfterGetDB(driver, old(db), old(historyCache))
      ensures conn == if exited then None else db
    {
      if db.None? {
        conn := InitDB();
        return;
      }
      conn := db;
    }

    /** `initDB`: open, create the table, store the connection in `db`, and
        only then load the history, so that the `GetDB` inside the load
        finds the connection and does not start over. */
    method InitDB() returns (conn: Option<Conn>)
      requires Valid() && !exited && db.None?
      modifies this
      decreases 1, 1
      ensures Valid() && inits == 1
      ensures State() == Initialized(driver, old(historyCache))
      ensures conn == if exited then None else db
    {
      inits := 1;
      if driver.open.Err? {
        exited := true;
        return None;
      }
      var c := driver.open.value;
      if driver.createTable.Some? {
        exited := true;
        return None;
      }
      db := Some(c);
      var history := RetrieveHistoryFromDB();
      if history.Err? {
        historyCache := [];
        exited := true;
        return None;
      }
      historyCache := history.value;
      conn := Some(c);
    }

    /** `retrieveHistoryFromDB`: query through `GetDB`, scan every row in
        order, stop at the first row that fails to scan. */
    method RetrieveHistoryFromDB() returns (r: Result<seq<Message>, string>)
      requires Valid() && !exited
      modifies this
      decreases if db.None? then 1 else 0, 3
      ensures Valid() && inits == 1
      ensures State() == AfterGetDB(driver, old(db), old(historyCache))
      ensures !exited ==> r == LoadHistory(driver.historyQuery)
    {
      var conn := GetDB();
      if conn.None? {
        return Err("exited");
      }
      if driver.historyQuery.Err? {
        return Err(driver.historyQuery.error);
      }
      r := ReadRows(driver.historyQuery.value.scans);
    }

    /** `retrieveHistory`: the cache itself, never an error. */
    method RetrieveHistory() returns (r: Result<seq<Message>, string>)
      ensures r == Ok(historyCache)
    {
      r := Ok(historyCache);
    }

    /** `saveMessage`: after `GetDB`, a `Prepare` error is returned and the
        cache is left alone; once the statement is prepared the message is
        appended to the cache whether or not `Exec` succeeds, and `Exec`'s
        error is returned. */
    method SaveMessage(msg: Message, prepare: Option<string>, exec: Option<string>) returns (err: Option<string>)
      requires Valid() && !exited
      modifies this
      ensures Valid() && inits == 1
      ensures var g := AfterGetDB(driver, old(db), old(historyCache));
        && db == g.db && exited == g.exited
        && (!exited && prepare.Some? ==> err == prepare && historyCache == g.cache)
        && (!exited && prepare.None? ==> err == exec && historyCache == g.cache + [msg])
    {
      var conn := GetDB();
      if conn.None? {
        return Some("exited");
      }
      if prepare.Some? {
        return prepare;
      }
      historyCache := historyCache + [msg];
      err := exec;
    }

    /** `getChatHistories`: the cache as chat messages, in order. */
    method GetChatHistories() returns (chats: seq<ChatMessage>)
      ensures ChatHistoryOf(historyCache, chats)
    {
      var messages := RetrieveHistory();
      chats := ToChatMessages(messages.value);
    }
  }
}
