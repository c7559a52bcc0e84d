/** The Flask routes of api/index.py: registration with its per-IP lock,
    suspicious-behaviour reports with the automatic ban, and the
    administrator's ban. As in module JsHandler, each route is a pure step
    on a `Redis.State` and a method issuing the same Redis calls on a
    `Redis.Store`. A missing JSON field reads as "". `register` treats that
    like the `None` Flask gives; the other two routes would pass `None` on
    to the store, which this model does not follow. */
module PyApi {
  import Redis

  /** ADMIN_PASS: the password that makes an account an administrator,
      exempts a reporter and authorises a ban. */
  const AdminPass := "daiki1225"

  /** register: 400 (a field is missing), 400 (the name is taken), 403 (this
      IP address already registered a non-administrator), or 200 with
      whether the new account is an administrator. */
  datatype RegisterReply = MissingField | NameTaken | IpTaken | Registered(isAdmin: bool)

  /** report_suspicious: admin_bypass (200), already_banned (403), banned
      (403), or warned with the new count (200). */
  datatype ReportReply = AdminBypass | AlreadyBanned | AutoBanned | Warned(count: int)

  /** admin_ban: 403 for a wrong administrator password, otherwise 200. */
  datatype BanReply = Unauthorized | Exiled

  /** The record register saves; `is_admin` is stored as Python's
      `str(is_admin)`. */
  function NewUser(password: string, ip: string, isAdmin: bool): (rec: Redis.Record)
    ensures rec.Keys == {"password", "ip", "is_admin", "score", Redis.SuspicionField}
    ensures rec[Redis.SuspicionField] == Redis.Int(0)
  {
    map["password" := Redis.Text(password), "ip" := Redis.Text(ip),
        "is_admin" := Redis.Text(if isAdmin then "True" else "False"),
        "score" := Redis.Int(1000), Redis.SuspicionField := Redis.Int(0)]
  }

  /** The reason stored with an automatic ban. */
  function BanReason(reason: string): Redis.Value {
    Redis.Text("自動BAN: " + reason + "の繰り返し")
  }

  /** register: empty fields, then a taken name, then (for everyone but an
      administrator) an IP address that already registered are refused
      without a write. The ban list is not consulted. */
  function RegisterStep(st: Redis.State, username: string, password: string, ip: string): (out: (Redis.State, RegisterReply))
    ensures out.1 == MissingField <==> username == "" || password == ""
    ensures out.1 == NameTaken <==> username != "" && password != "" && username in st.users
    ensures out.1 == IpTaken <==>
              username != "" && password != "" && username !in st.users && password != AdminPass && ip in st.ipOwner
    ensures !out.1.Registered? ==> out.0 == st
    ensures out.1.Registered? ==>
              out.1.isAdmin == (password == AdminPass) &&
              out.0.users == st.users[username := NewUser(password, ip, out.1.isAdmin)] &&
              out.0.banned == st.banned &&
              out.0.ipOwner == (if out.1.isAdmin then st.ipOwner else st.ipOwner[ip := username])
    ensures Redis.Valid(st) ==> Redis.Valid(out.0)
  {
    if username == "" || password == "" then (st, MissingField)
    else if username in st.users then (st, NameTaken)
    else
      var isAdmin := password == AdminPass;
      if !isAdmin && ip in st.ipOwner then (st, IpTaken)
      else
        var st1 := Redis.WithFields(st, username, NewUser(password, ip, isAdmin));
        var st2 := if isAdmin then st1 else Redis.WithIp(st1, ip, username);
        (st2, Registered(isAdmin))
  }

  /** report_suspicious: the administrator password bypasses everything and
      a banned name is refused, both without a write; otherwise the report
      is counted as in `Counted`. */
  function ReportStep(st: Redis.State, username: string, password: string, reason: string): (out: (Redis.State, ReportReply))
    requires Redis.Valid(st)
    ensures out.1 == AdminBypass <==> password == AdminPass
    ensures out.1 == AlreadyBanned <==> password != AdminPass && username in st.banned
    ensures out.1 == AdminBypass || out.1 == AlreadyBanned ==> out.0 == st
    ensures out.1 == AutoBanned || out.1.Warned? ==>
              Redis.Suspicion(out.0, username) == Redis.Suspicion(st, username) + 1
    ensures out.1.Warned? ==> Redis.FieldsWritten(st, out.0, username, {Redis.SuspicionField})
    ensures out.1 == AutoBanned ==> Redis.FieldsWritten(st, out.0, username, {Redis.SuspicionField, "ban_reason"})
    ensures out.1 == AutoBanned <==>
              password != AdminPass && username !in st.banned && Redis.Suspicion(st, username) + 1 >= Redis.SuspicionLimit
    ensures out.1 == AutoBanned ==>
              out.0.banned == st.banned + {username} && username in out.0.users &&
              "ban_reason" in out.0.users[username] && out.0.users[username]["ban_reason"] == BanReason(reason)
    ensures out.1.Warned? ==>
              out.0.banned == st.banned && out.1.count == Redis.Suspicion(out.0, username) < Redis.SuspicionLimit
    ensures Redis.Valid(out.0)
  {
    if password == AdminPass then (st, AdminBypass)
    else if username in st.banned then (st, AlreadyBanned)
    else Counted(st, username, reason)
  }

  /** The counting part of report_suspicious: the counter goes up by one;
      below the limit the answer is a warning with the new count and only
      the counter was written; at the limit the name is banned and the
      record also gets a `ban_reason`. */
  function Counted(st: Redis.State, username: string, reason: string): (out: (Redis.State, ReportReply))
    requires Redis.Valid(st)
    ensures out.1 == AutoBanned || out.1.Warned?
    ensures Redis.Suspicion(out.0, username) == Redis.Suspicion(st, username) + 1
    ensures out.1 == AutoBanned <==> Redis.Suspicion(st, username) + 1 >= Redis.SuspicionLimit
    ensures out.1.Warned? ==>
              Redis.FieldsWritten(st, out.0, username, {Redis.SuspicionField}) &&
              out.0.banned == st.banned && out.1.count == Redis.Suspicion(out.0, username) < Redis.SuspicionLimit
    ensures out.1 == AutoBanned ==>
              Redis.FieldsWritten(st, out.0, username, {Redis.SuspicionField, "ban_reason"}) &&
              out.0.banned == st.banned + {username} && username in out.0.users &&
              "ban_reason" in out.0.users[username] && out.0.users[username]["ban_reason"] == BanReason(reason)
    ensures Redis.Valid(out.0)
  {
    var (st1, count) := Redis.Incremented(st, username, Redis.SuspicionField, 1);
    Redis.IncrementedWrites(st, username, Redis.SuspicionField, 1);
    if count >= Redis.SuspicionLimit then
      var st2 := AutoBan(st1, username, reason);
      Redis.FieldsWrittenTwice(st, st1, st1, st2, username, {Redis.SuspicionField}, {"ban_reason"});
      assert {Redis.SuspicionField} + {"ban_reason"} == {Redis.SuspicionField, "ban_reason"};
      (st2, AutoBanned)
    else (st1, Warned(count))
  }

  /** The automatic ban of report_suspicious: the name joins the ban list and
      its record gets a `ban_reason` quoting the reported reason; nothing
      else changes. */
  function AutoBan(st: Redis.State, username: string, reason: string): (out: Redis.State)
    ensures out.banned == st.banned + {username}
    ensures Redis.FieldsWritten(st, out, username, {"ban_reason"})
    ensures out.users[username]["ban_reason"] == BanReason(reason)
    ensures Redis.Valid(st) ==> Redis.Valid(out)
  {
    var fields := map["ban_reason" := BanReason(reason)];
    assert fields.Keys == {"ban_reason"};
    Redis.WithFieldsWrites(Redis.WithBan(st, username), username, fields);
    Redis.WithFields(Redis.WithBan(st, username), username, fields)
  }

  /** admin_ban: with the administrator password the target joins the ban
      list; with any other password nothing changes. */
  function AdminBanStep(st: Redis.State, adminPassword: string, target: string): (out: (Redis.State, BanReply))
    ensures out.1 == Exiled <==> adminPassword == AdminPass
    ensures out.1 == Unauthorized ==> out.0 == st
    ensures out.1 == Exiled ==> out.0 == st.(banned := st.banned + {target})
  {
    if adminPassword != AdminPass then (st, Unauthorized)
    else (Redis.WithBan(st, target), Exiled)
  }

  method Register(store: Redis.Store, username: string, password: string, ip: string) returns (reply: RegisterReply)
    modifies store
    ensures (store.View(), reply) == RegisterStep(old(store.View()), username, password, ip)
  {
    if username == "" || password == "" {
      return MissingField;
    }
    var taken := store.Exists(username);
    if taken {
      return NameTaken;
    }
    var isAdmin := password == AdminPass;
    if !isAdmin {
      var locked := store.IpExists(ip);
      if locked {
        return IpTaken;
      }
    }
    store.HSet(username, NewUser(password, ip, isAdmin));
    if !isAdmin {
      store.SetIp(ip, username);
    }
    return Registered(isAdmin);
  }

  method ReportSuspicious(store: Redis.Store, username: string, password: string, reason: string) returns (reply: ReportReply)
    requires Redis.Valid(store.View())
    modifies store
    ensures (store.View(), reply) == ReportStep(old(store.View()), username, password, reason)
  {
    if password == AdminPass {
      return AdminBypass;
    }
    var banned := store.IsMember(username);
    if banned {
      return AlreadyBanned;
    }
    var count := store.HIncrBy(username, Redis.SuspicionField, 1);
    if count >= Redis.SuspicionLimit {
      store.SAdd(username);
      store.HSet(username, map["ban_reason" := BanReason(reason)]);
      return AutoBanned;
    }
    return Warned(count);
  }

  method AdminBan(store: Redis.Store, adminPassword: string, target: string) returns (reply: BanReply)
    modifies store
    ensures (store.View(), reply) == AdminBanStep(old(store.View()), adminPassword, target)
  {
    if adminPassword != AdminPass {
      return Unauthorized;
    }
    store.SAdd(target);
    return Exiled;
  }

  /** One request to the three routes. */
  datatype Request =
    | RegisterRequest(username: string, password: string, ip: string)
    | ReportRequest(name: string, reporterPassword: string, reason: string)
    | BanRequest(adminPassword: string, target: string)

  datatype Reply = RegisterAnswer(reg: RegisterReply) | ReportAnswer(rep: ReportReply) | BanAnswer(ban: BanReply)

  function Step(st: Redis.State, req: Request): (out: (Redis.State, Reply))
    requires Redis.Valid(st)
    ensures Redis.Valid(out.0)
  {
    match req
    case RegisterRequest(u, p, ip) => var (s, a) := RegisterStep(st, u, p, ip); (s, RegisterAnswer(a))
    case ReportRequest(u, p, reason) => var (s, a) := ReportStep(st, u, p, reason); (s, ReportAnswer(a))
    case BanRequest(p, t) => var (s, a) := AdminBanStep(st, p, t); (s, BanAnswer(a))
  }

  /** Serving a sequence of requests, in order, from store `st`. */
  function Serve(st: Redis.State, reqs: seq<Request>): (out: (Redis.State, seq<Reply>))
    requires Redis.Valid(st)
    ensures Redis.Valid(out.0) && |out.1| == |reqs|
    decreases |reqs|
  {
    if reqs == [] then (st, [])
    else
      var (st1, reply) := Step(st, reqs[0]);
      var (st2, replies) := Serve(st1, reqs[1..]);
      (st2, [reply] + replies)
  }

  /** One request never removes a ban, never releases an IP address, and
      never changes the counter of a banned user. */
  lemma StepMonotone(st: Redis.State, req: Request)
    requires Redis.Valid(st)
    ensures var st1 := Step(st, req).0;
      st.banned <= st1.banned && st.ipOwner.Keys <= st1.ipOwner.Keys &&
      forall u :: u in st.banned ==> Redis.Suspicion(st1, u) == Redis.Suspicion(st, u)
  {
    var st1 := Step(st, req).0;
    forall u | u in st.banned
      ensures Redis.Suspicion(st1, u) == Redis.Suspicion(st, u)
    {
      match req
      case RegisterRequest(n, p, ip) =>
        if n == u && RegisterStep(st, n, p, ip).1.Registered? {
          assert u !in st.users;
        }
      case ReportRequest(n, p, reason) =>
      case BanRequest(p, t) =>
    }
  }

  /** Over any sequence of requests: bans are permanent, IP locks are
      permanent, and a banned user's counter is frozen. */
  lemma {:induction false} ServeMonotone(st: Redis.State, reqs: seq<Request>)
    requires Redis.Valid(st)
    ensures var out := Serve(st, reqs).0;
      st.banned <= out.banned && st.ipOwner.Keys <= out.ipOwner.Keys &&
      forall u :: u in st.banned ==> Redis.Suspicion(out, u) == Redis.Suspicion(st, u)
    decreases |reqs|
  {
    if reqs != [] {
      StepMonotone(st, reqs[0]);
      ServeMonotone(Step(st, reqs[0]).0, reqs[1..]);
    }
  }

  /** One request keeps every name that is off the ban list under the limit. */
  lemma StepKeepsLimit(st: Redis.State, req: Request)
    requires Redis.Valid(st) && Redis.BelowLimitUnlessBanned(st)
    ensures Redis.BelowLimitUnlessBanned(Step(st, req).0)
  {
    var st1 := Step(st, req).0;
    forall v | v in st1.users && v !in st1.banned
      ensures Redis.Suspicion(st1, v) < Redis.SuspicionLimit
    {
      match req
      case RegisterRequest(u, p, ip) =>
        if v != u || !RegisterStep(st, u, p, ip).1.Registered? {
          assert Redis.Suspicion(st1, v) == Redis.Suspicion(st, v);
        }
      case ReportRequest(u, p, reason) =>
        if v != u || !ReportStep(st, u, p, reason).1.Warned? {
          assert Redis.Suspicion(st1, v) == Redis.Suspicion(st, v);
        }
      case BanRequest(p, t) =>
    }
  }

  /** Every name that is not on the ban list has fewer reports than
      SUSPICIOUS_LIMIT, before and after any sequence of requests. */
  lemma {:induction false} LimitEnforced(st: Redis.State, reqs: seq<Request>)
    requires Redis.Valid(st) && Redis.BelowLimitUnlessBanned(st)
    ensures Redis.BelowLimitUnlessBanned(Serve(st, reqs).0)
    decreases |reqs|
  {
    if reqs != [] {
      StepKeepsLimit(st, reqs[0]);
      LimitEnforced(Step(st, reqs[0]).0, reqs[1..]);
    }
  }

  /** Once a non-administrator registered from an IP address, every later
      non-administrator registration from it, under a fresh name, is
      refused with 403. */
  lemma {:induction false} OneAccountPerIp(st: Redis.State, name: string, password: string, ip: string,
                                           between: seq<Request>, name2: string, password2: string)
    requires Redis.Valid(st)
    requires RegisterStep(st, name, password, ip).1 == Registered(false)
    requires var mid := Serve(RegisterStep(st, name, password, ip).0, between).0;
      name2 != "" && password2 != "" && password2 != AdminPass && name2 !in mid.users
    ensures var mid := Serve(RegisterStep(st, name, password, ip).0, between).0;
      RegisterStep(mid, name2, password2, ip).1 == IpTaken
  {
    ServeMonotone(RegisterStep(st, name, password, ip).0, between);
  }

  /** The ban list does not stop a registration: a banned name without a
      record registers like any other. */
  lemma BannedNameRegisters(st: Redis.State, username: string, password: string, ip: string)
    requires username in st.banned && username !in st.users && username != "" && password != ""
    requires password == AdminPass || ip !in st.ipOwner
    ensures RegisterStep(st, username, password, ip).1.Registered?
    ensures username in RegisterStep(st, username, password, ip).0.banned
  {
  }
}
