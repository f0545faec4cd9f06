/**
 * The browser's key-value stores (localStorage and sessionStorage), with
 * the JSON text they hold replaced by the shapes the script writes there.
 */
module WebStorage {
  import opened VisitorLog

  /** What `currentSession` holds; the screen, user-agent, referrer,
      language and platform fields are not part of this model. */
  datatype SessionData = SessionData(sessionId: string, fingerprint: string, timestamp: int, isUniqueVisit: bool)

  datatype Value =
    | Count(n: int)                        // a counter written with toString()
    | Visitors(records: seq<VisitorRecord>) // a day's visitor list
    | History(entries: seq<HistoryEntry>)   // the visit history
    | Ids(ids: seq<string>)                 // the section ids viewed this session
    | Session(data: SessionData)            // the current session

  /** One Storage object: `getItem`, `setItem` and `removeItem` over a map. */
  class Store {
    var items: map<string, Value>

    method SetItem(key: string, value: Value)
      modifies this
      ensures items == old(items)[key := value]
    {
      items := items[key := value];
    }

    method RemoveItem(key: string)
      modifies this
      ensures items == old(items) - {key}
    {
      items := items - {key};
    }
  }

  /** `parseInt(getItem(key) || '0')`: 0 when the key is absent. */
  function CountAt(items: map<string, Value>, key: string): (r: int)
    ensures key in items && items[key].Count? ==> r == items[key].n
    ensures key !in items ==> r == 0
  {
    if key in items && items[key].Count? then items[key].n else 0
  }

  /** `JSON.parse(getItem(key) || '[]')` for a visitor list. */
  function VisitorsAt(items: map<string, Value>, key: string): (r: seq<VisitorRecord>) 
    ensures key in items && items[key].Visitors? ==> r == items[key].records
    ensures key !in items ==> r == []
  {
    if key in items && items[key].Visitors? then items[key].records else []
  }

  /** `JSON.parse(getItem(key) || '[]')` for the history. */
  function HistoryAt(items: map<string, Value>, key: string): (r: seq<HistoryEntry>) 
    ensures key in items && items[key].History? ==> r == items[key].entries
    ensures key !in items ==> r == []
  {
    if key in items && items[key].History? then items[key].entries else []
  }

  /** `JSON.parse(getItem(key) || '[]')` for a list of ids. */
  function IdsAt(items: map<string, Value>, key: string): (r: seq<string>) 
    ensures key in items && items[key].Ids? ==> r == items[key].ids
    ensures key !in items ==> r == []
  {
    if key in items && items[key].Ids? then items[key].ids else []
  }
}
