/**
 * The store the repositories work on, seen after parsing: each collection
 * key of the browser store holds a JSON array of objects, `analytics` an
 * object and `currentUser` the session record. An absent key is read as
 * its default (`[]`, `{}`, null), which is what the fields start at.
 * Stored text that does not parse has no counterpart here: only the
 * `getFromLocalStorage` wrappers turn it into the default, while the
 * reads in assets/auth.js and both `getCurrentUser` functions throw on it.
 */
module LocalStore {
  import opened Js

  /** One reading of the clock: `Date.now()` and `new Date().toISOString()` at the same instant. */
  datatype Clock = Clock(millis: nat, iso: string)

  /** The store's contents as a value, one component per key. */
  datatype State = State(
    monasteries: seq<Record>,
    archives: seq<Record>,
    calendarEvents: seq<Record>,
    users: seq<Record>,
    activities: seq<Record>,
    analytics: Record,
    currentUser: Option<Record>)

  class Store {
    var monasteries: seq<Record>      // key "monasteries"
    var archives: seq<Record>         // key "archives"
    var calendarEvents: seq<Record>   // key "calendarEvents"
    var users: seq<Record>            // key "monastery360Users"
    var activities: seq<Record>       // key "adminActivities", newest first
    var analytics: Record             // key "analytics"
    var currentUser: Option<Record>   // key "currentUser": `getCurrentUser()`

    constructor (st: State)
      ensures View() == st
    {
      monasteries := st.monasteries;
      archives := st.archives;
      calendarEvents := st.calendarEvents;
      users := st.users;
      activities := st.activities;
      analytics := st.analytics;
      currentUser := st.currentUser;
    }

    function View(): State
      reads this
    {
      State(monasteries, archives, calendarEvents, users, activities, analytics, currentUser)
    }
  }
}
