/** The Redis store both API handlers talk to, reduced to the keys they use:
    the hashes `user:<name>` (a record of fields per user name), the set
    `ban_list`, and the strings `ip_registered:<ip>` (which user name an IP
    address registered). Each Redis command the handlers issue is a pure
    transition on `State`, and class `Store` performs it in place. */
module Redis {

  /** A hash field value: the handlers write integers (which HINCRBY can
      increment) and text. */
  datatype Value = Int(n: int) | Text(s: string)

  type Record = map<string, Value>

  datatype State = State(users: map<string, Record>, banned: set<string>, ipOwner: map<string, string>)

  /** The field both report handlers increment. */
  const SuspicionField := "suspicious_count"

  /** Reports that trigger an automatic ban (SUSPICIOUS_LIMIT in api/index.py). */
  const SuspicionLimit := 5

  /** HINCRBY only succeeds on a missing or integer field; every state the
      handlers produce keeps the suspicion counters integral. */
  predicate Valid(st: State) {
    forall u :: u in st.users && SuspicionField in st.users[u] ==> st.users[u][SuspicionField].Int?
  }

  /** The integer HINCRBY starts from: the stored value, or 0 when the
      record or the field is missing. */
  function FieldCount(st: State, name: string, field: string): int {
    if name in st.users && field in st.users[name] && st.users[name][field].Int? then st.users[name][field].n else 0
  }

  /** The suspicion counter of a user, 0 when there is none. */
  function Suspicion(st: State, name: string): int {
    FieldCount(st, name, SuspicionField)
  }

  /** Every user who is not banned has fewer reports than the ban limit. */
  predicate BelowLimitUnlessBanned(st: State) {
    forall u :: u in st.users && u !in st.banned ==> Suspicion(st, u) < SuspicionLimit
  }

  /** `out` differs from `st` only in the record of `name`: that record
      exists, its fields are the old ones (none if it was missing) plus
      `written`, every field outside `written` keeps its value, and every
      other record and the IP registrations are kept. The ban list is not
      constrained. */
  predicate FieldsWritten(st: State, out: State, name: string, written: set<string>) {
    && out.ipOwner == st.ipOwner
    && out.users.Keys == st.users.Keys + {name}
    && (forall u :: u in st.users && u != name ==> out.users[u] == st.users[u])
    && out.users[name].Keys == (if name in st.users then st.users[name].Keys else {}) + written
    && (forall f :: name in st.users && f in st.users[name] && f !in written ==> out.users[name][f] == st.users[name][f])
  }

  /** Two writes to the same record, possibly with a ban-list change in
      between, write the union of their fields. */
  lemma FieldsWrittenTwice(a: State, b: State, b': State, c: State, name: string, w1: set<string>, w2: set<string>)
    requires FieldsWritten(a, b, name, w1)
    requires b'.users == b.users && b'.ipOwner == b.ipOwner
    requires FieldsWritten(b', c, name, w2)
    ensures FieldsWritten(a, c, name, w1 + w2)
  {
  }

  /** HSET: writes the given fields into the record, creating it if missing;
      the other fields of the record are kept. */
  function WithFields(st: State, name: string, fields: Record): (out: State)
    ensures name in out.users
    ensures name !in st.users ==> out.users[name] == fields
    ensures name in st.users ==> out.users[name].Keys == st.users[name].Keys + fields.Keys
    ensures forall f :: f in fields ==> out.users[name][f] == fields[f]
    ensures forall f :: name in st.users && f in st.users[name] && f !in fields ==> out.users[name][f] == st.users[name][f]
    ensures out.users.Keys == st.users.Keys + {name}
    ensures forall u :: u in st.users && u != name ==> out.users[u] == st.users[u]
    ensures out.banned == st.banned && out.ipOwner == st.ipOwner
  {
    var old_ := if name in st.users then st.users[name] else map[];
    st.(users := st.users[name := old_ + fields])
  }

  /** HINCRBY: adds `delta` to an integer field, starting from 0 when the
      record or the field is missing, and returns the new value. */
  function Incremented(st: State, name: string, field: string, delta: int): (out: (State, int))
    requires name in st.users && field in st.users[name] ==> st.users[name][field].Int?
    ensures out.1 == FieldCount(st, name, field) + delta
    ensures name in out.0.users && field in out.0.users[name] && out.0.users[name][field] == Int(out.1)
    ensures name in st.users ==> out.0.users[name].Keys == st.users[name].Keys + {field}
    ensures FieldCount(out.0, name, field) == FieldCount(st, name, field) + delta
    ensures forall f :: name in st.users && f in st.users[name] && f != field ==> out.0.users[name][f] == st.users[name][f]
    ensures out.0.users.Keys == st.users.Keys + {name}
    ensures forall u :: u in st.users && u != name ==> out.0.users[u] == st.users[u]
    ensures out.0.banned == st.banned && out.0.ipOwner == st.ipOwner
  {
    var n := FieldCount(st, name, field) + delta;
    (WithFields(st, name, map[field := Int(n)]), n)
  }

  /** HSET writes exactly the fields it is given. */
  lemma WithFieldsWrites(st: State, name: string, fields: Record)
    ensures FieldsWritten(st, WithFields(st, name, fields), name, fields.Keys)
  {
  }

  /** HINCRBY writes exactly the field it increments. */
  lemma IncrementedWrites(st: State, name: string, field: string, delta: int)
    requires name in st.users && field in st.users[name] ==> st.users[name][field].Int?
    ensures FieldsWritten(st, Incremented(st, name, field, delta).0, name, {field})
  {
  }

  /** SADD on `ban_list`. */
  function WithBan(st: State, name: string): (out: State)
    ensures out.banned == st.banned + {name}
    ensures out.users == st.users && out.ipOwner == st.ipOwner
  {
    st.(banned := st.banned + {name})
  }

  /** SET `ip_registered:<ip>` to a user name. */
  function WithIp(st: State, ip: string, name: string): (out: State)
    ensures out.ipOwner == st.ipOwner[ip := name]
    ensures out.users == st.users && out.banned == st.banned
  {
    st.(ipOwner := st.ipOwner[ip := name])
  }

  /** The store itself, updated in place by the handlers' Redis calls. */
  class Store {
    var users: map<string, Record>
    var banned: set<string>
    var ipOwner: map<string, string>

    function View(): State
      reads this
    {
      State(users, banned, ipOwner)
    }

    constructor (initial: State)
      ensures View() == initial
    {
      users, banned, ipOwner := initial.users, initial.banned, initial.ipOwner;
    }

    /** EXISTS `user:<name>`. */
    method Exists(name: string) returns (found: bool)
      ensures found <==> name in View().users
    {
      found := name in users;
    }

    /** SISMEMBER `ban_list` name. */
    method IsMember(name: string) returns (member: bool)
      ensures member <==> name in View().banned
    {
      member := name in banned;
    }

    /** EXISTS `ip_registered:<ip>`. */
    method IpExists(ip: string) returns (found: bool)
      ensures found <==> ip in View().ipOwner
    {
      found := ip in ipOwner;
    }

    method HSet(name: string, fields: Record)
      modifies this
      ensures View() == WithFields(old(View()), name, fields)
    {
      var old_ := if name in users then users[name] else map[];
      users := users[name := old_ + fields];
    }

    method HIncrBy(name: string, field: string, delta: int) returns (n: int)
      requires name in View().users && field in View().users[name] ==> View().users[name][field].Int?
      modifies this
      ensures (View(), n) == Incremented(old(View()), name, field, delta)
    {
      n := FieldCount(View(), name, field) + delta;
      HSet(name, map[field := Int(n)]);
    }

    method SAdd(name: string)
      modifies this
      ensures View() == WithBan(old(View()), name)
    {
      banned := banned + {name};
    }

    method SetIp(ip: string, name: string)
      modifies this
      ensures View() == WithIp(old(View()), ip, name)
    {
      ipOwner := ipOwner[ip := name];
    }
  }
}
