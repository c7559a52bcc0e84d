/** The register, report and move branches of the request handler in
    api/index.js. Each store branch is a pure step (the reply, and the store
    it leaves behind) and a method issuing the same Redis calls, in the same
    order, on a `Redis.Store`. */
module JsHandler {
  import Board
  import Redis
  import JsGameLogic

  /** register: 200 "OK", 403 (the name is on the ban list) or 400 (the
      name is taken). */
  datatype RegisterReply = Ok | Forbidden | Duplicate

  /** report: status WARNED with the new count, or BANNED (both 200). */
  datatype ReportReply = Warned(count: int) | Banned

  /** move: 400 (the move is not legal), 200 with the new board, or the
      500 of the handler's catch block when the row index is not a row of
      the board and reading `board[r][c]` throws. */
  datatype MoveReply = Illegal | Played(board: array2<int>) | Crashed

  /** The record register writes: the password, a rating of 1000 and a
      field `suspicious` of 0. That field is not the `suspicious_count`
      which report increments. */
  function NewUser(password: string): (rec: Redis.Record)
    ensures rec.Keys == {"password", "rate", "suspicious"}
    ensures Redis.SuspicionField !in rec
  {
    map["password" := Redis.Text(password), "rate" := Redis.Int(1000), "suspicious" := Redis.Int(0)]
  }

  /** register: the ban list is consulted before the user table, and only a
      name that is on neither is written. */
  function RegisterStep(st: Redis.State, username: string, password: string): (out: (Redis.State, RegisterReply))
    ensures out.1 == Forbidden <==> username in st.banned
    ensures out.1 == Duplicate <==> username !in st.banned && username in st.users
    ensures out.1 != Ok ==> out.0 == st
    ensures out.1 == Ok ==> out.0 == st.(users := st.users[username := NewUser(password)])
    ensures Redis.Valid(st) ==> Redis.Valid(out.0)
  {
    if username in st.banned then (st, Forbidden)
    else if username in st.users then (st, Duplicate)
    else (Redis.WithFields(st, username, NewUser(password)), Ok)
  }

  /** report: the counter always goes up by one, banned or not; at the
      limit the name is added to the ban list. */
  function ReportStep(st: Redis.State, username: string): (out: (Redis.State, ReportReply))
    requires Redis.Valid(st)
    ensures Redis.Suspicion(out.0, username) == Redis.Suspicion(st, username) + 1
    ensures out.1 == Banned <==> Redis.Suspicion(out.0, username) >= Redis.SuspicionLimit
    ensures out.1.Warned? ==> out.1.count == Redis.Suspicion(out.0, username)
    ensures out.0.banned == (if out.1 == Banned then st.banned + {username} else st.banned)
    ensures out.0.ipOwner == st.ipOwner
    ensures out.0.users.Keys == st.users.Keys + {username}
    ensures Redis.SuspicionField in out.0.users[username]
    ensures username in st.users ==> out.0.users[username].Keys == st.users[username].Keys + {Redis.SuspicionField}
    ensures username !in st.users ==> out.0.users[username] == map[Redis.SuspicionField := Redis.Int(1)]
    ensures forall u :: u in st.users && u != username ==> out.0.users[u] == st.users[u]
    ensures forall f :: username in st.users && f in st.users[username] && f != Redis.SuspicionField ==>
              out.0.users[username][f] == st.users[username][f]
    ensures Redis.Valid(out.0)
  {
    var (st1, count) := Redis.Incremented(st, username, Redis.SuspicionField, 1);
    if count >= Redis.SuspicionLimit then (Redis.WithBan(st1, username), Banned)
    else (st1, Warned(count))
  }

  method Register(store: Redis.Store, username: string, password: string) returns (reply: RegisterReply)
    modifies store
    ensures (store.View(), reply) == RegisterStep(old(store.View()), username, password)
  {
    var banned := store.IsMember(username);
    if banned {
      return Forbidden;
    }
    var taken := store.Exists(username);
    if taken {
      return Duplicate;
    }
    store.HSet(username, NewUser(password));
    return Ok;
  }

  method Report(store: Redis.Store, username: string) returns (reply: ReportReply)
    requires Redis.Valid(store.View())
    modifies store
    ensures (store.View(), reply) == ReportStep(old(store.View()), username)
  {
    var count := store.HIncrBy(username, Redis.SuspicionField, 1);
    if count >= Redis.SuspicionLimit {
      store.SAdd(username);
      return Banned;
    }
    return Warned(count);
  }

  /** move: a legal move answers a fresh board with the move played; the
      posted board itself is not written. A column off the board makes
      canPlace read `undefined`, which is not 0, so the move is illegal. */
  method Move(board: array2<int>, r: int, c: int, color: int) returns (reply: MoveReply)
    requires board.Length0 == 8 && board.Length1 == 8
    ensures reply.Crashed? <==> !(0 <= r < 8)
    ensures reply.Illegal? <==> 0 <= r < 8 && !(0 <= c < 8 && Board.CanPlace(Board.Snapshot(board), r, c, color))
    ensures reply.Played? ==> fresh(reply.board) && reply.board.Length0 == 8 && reply.board.Length1 == 8
    ensures reply.Played? ==> Board.Snapshot(reply.board) == Board.Moved(Board.Snapshot(board), r, c, color)
  {
    if !(0 <= r < 8) {
      return Crashed;
    }
    if !(0 <= c < 8) {
      return Illegal;
    }
    var ok := JsGameLogic.CanPlace(board, r, c, color);
    if !ok {
      return Illegal;
    }
    var next := JsGameLogic.ExecuteMove(board, r, c, color);
    return Played(next);
  }

  /** One request to the store branches. */
  datatype Request = RegisterRequest(username: string, password: string) | ReportRequest(name: string)

  datatype Reply = RegisterAnswer(reg: RegisterReply) | ReportAnswer(rep: ReportReply)

  /** One request, dispatched to its branch. */
  function Step(st: Redis.State, req: Request): (out: (Redis.State, Reply))
    requires Redis.Valid(st)
    ensures Redis.Valid(out.0)
  {
    match req
    case RegisterRequest(u, p) => var (s, a) := RegisterStep(st, u, p); (s, RegisterAnswer(a))
    case ReportRequest(u) => var (s, a) := ReportStep(st, u); (s, ReportAnswer(a))
  }

  /** Serving a sequence of requests, in order, from store `st`. */
  function Serve(st: Redis.State, reqs: seq<Request>): (out: (Redis.State, seq<Reply>))
    requires Redis.Valid(st)
    ensures Redis.Valid(out.0) && |out.1| == |reqs|
    decreases |reqs|
  {
    if reqs == [] then (st, [])
    else
      var (st1, reply) := Step(st, reqs[0]);
      var (st2, replies) := Serve(st1, reqs[1..]);
      (st2, [reply] + replies)
  }

  /** No request takes a name off the ban list. */
  lemma {:induction false} BanIsPermanent(st: Redis.State, reqs: seq<Request>)
    requires Redis.Valid(st)
    ensures st.banned <= Serve(st, reqs).0.banned
    decreases |reqs|
  {
    if reqs != [] {
      BanIsPermanent(Step(st, reqs[0]).0, reqs[1..]);
    }
  }

  /** One request keeps every name that is off the ban list under the limit. */
  lemma StepKeepsLimit(st: Redis.State, req: Request)
    requires Redis.Valid(st) && Redis.BelowLimitUnlessBanned(st)
    ensures Redis.BelowLimitUnlessBanned(Step(st, req).0)
  {
    var st1 := Step(st, req).0;
    forall v | v in st1.users && v !in st1.banned
      ensures Redis.Suspicion(st1, v) < Redis.SuspicionLimit
    {
      match req
      case RegisterRequest(u, p) =>
        if v == u && u !in st.users && u !in st.banned {
          assert st1.users[v] == NewUser(p);
        } else {
          assert Redis.Suspicion(st1, v) == Redis.Suspicion(st, v);
        }
      case ReportRequest(u) =>
        if v != u {
          assert Redis.Suspicion(st1, v) == Redis.Suspicion(st, v);
        }
    }
  }

  /** Every name that is not on the ban list has fewer reports than the
      limit, before and after any sequence of requests. */
  lemma {:induction false} LimitEnforced(st: Redis.State, reqs: seq<Request>)
    requires Redis.Valid(st) && Redis.BelowLimitUnlessBanned(st)
    ensures Redis.BelowLimitUnlessBanned(Serve(st, reqs).0)
    decreases |reqs|
  {
    if reqs != [] {
      StepKeepsLimit(st, reqs[0]);
      LimitEnforced(Step(st, reqs[0]).0, reqs[1..]);
    }
  }

  /** The answer to a report that brings the counter to `count`. */
  function ReportAnswerAt(count: int): Reply {
    ReportAnswer(if count >= Redis.SuspicionLimit then Banned else Warned(count))
  }

  /** Serving a non-empty sequence: its first request, then the rest. */
  lemma ServeFirst(st: Redis.State, reqs: seq<Request>)
    requires Redis.Valid(st) && reqs != []
    ensures var (st1, a) := Step(st, reqs[0]);
      Serve(st, reqs) == (Serve(st1, reqs[1..]).0, [a] + Serve(st1, reqs[1..]).1)
  {
  }

  /** The answers to reports from counter c: the first, then those from c + 1. */
  lemma AnswersFrom(c: int, n: nat)
    requires n > 0
    ensures seq(n, i => ReportAnswerAt(c + i + 1)) == [ReportAnswerAt(c + 1)] + seq(n - 1, i => ReportAnswerAt(c + 1 + i + 1))
  {
  }

  /** n reports on one name from counter c: the i-th answer is the one
      for counter c + i + 1, so WARNED counts up to the limit and every
      later answer is BANNED. */
  lemma {:induction false} RepeatedReports(st: Redis.State, name: string, n: nat)
    requires Redis.Valid(st)
    ensures Serve(st, seq(n, _ => ReportRequest(name))).1 == seq(n, i => ReportAnswerAt(Redis.Suspicion(st, name) + i + 1))
    decreases n
  {
    if n > 0 {
      var c := Redis.Suspicion(st, name);
      var reqs := seq(n, _ => ReportRequest(name));
      ServeFirst(st, reqs);
      var s1 := ReportStep(st, name).0;
      assert Step(st, reqs[0]) == (s1, ReportAnswerAt(c + 1));
      assert reqs[1..] == seq(n - 1, _ => ReportRequest(name));
      RepeatedReports(s1, name, n - 1);
      AnswersFrom(c, n);
    }
  }

  /** Reports that bring the counter to the limit leave the name banned. */
  lemma {:induction false} ReportsReachingLimitBan(st: Redis.State, name: string, n: nat)
    requires Redis.Valid(st) && n >= 1 && Redis.Suspicion(st, name) + n >= Redis.SuspicionLimit
    ensures name in Serve(st, seq(n, _ => ReportRequest(name))).0.banned
    decreases n
  {
    var reqs := seq(n, _ => ReportRequest(name));
    var s1 := ReportStep(st, name).0;
    assert Serve(st, reqs).0 == Serve(s1, reqs[1..]).0;
    assert reqs[1..] == seq(n - 1, _ => ReportRequest(name));
    if n == 1 {
      assert Serve(s1, []).0 == s1;
    } else {
      ReportsReachingLimitBan(s1, name, n - 1);
    }
  }

  /** Five reports on a name nobody has reported: WARNED with counts 1 to
      4, then BANNED, and the name is on the ban list. */
  lemma FiveReportsBan(st: Redis.State, name: string)
    requires Redis.Valid(st) && Redis.Suspicion(st, name) == 0
    ensures var out := Serve(st, seq(5, _ => ReportRequest(name)));
      out.1 == [ReportAnswer(Warned(1)), ReportAnswer(Warned(2)), ReportAnswer(Warned(3)),
                ReportAnswer(Warned(4)), ReportAnswer(Banned)] &&
      name in out.0.banned
  {
    RepeatedReports(st, name, 5);
    ReportsReachingLimitBan(st, name, 5);
    var want := [ReportAnswer(Warned(1)), ReportAnswer(Warned(2)), ReportAnswer(Warned(3)),
                 ReportAnswer(Warned(4)), ReportAnswer(Banned)];
    var got := seq(5, i => ReportAnswerAt(Redis.Suspicion(st, name) + i + 1));
    forall i | 0 <= i < 5
      ensures got[i] == want[i]
    {
      assert got[i] == ReportAnswerAt(i + 1);
    }
  }

  /** register seeds `suspicious`, not the counter report increments: after
      a registration and one report the record holds `suspicious` 0 next
      to `suspicious_count` 1. */
  lemma RegisterDoesNotSeedCounter(st: Redis.State, name: string, password: string)
    requires Redis.Valid(st) && name !in st.banned && name !in st.users
    ensures var out := Serve(st, [RegisterRequest(name, password), ReportRequest(name)]).0;
      name in out.users && "suspicious" in out.users[name] && Redis.SuspicionField in out.users[name] &&
      out.users[name]["suspicious"] == Redis.Int(0) && out.users[name][Redis.SuspicionField] == Redis.Int(1)
  {
    var s1 := RegisterStep(st, name, password).0;
    assert Redis.Suspicion(s1, name) == 0;
    var s2 := ReportStep(s1, name).0;
    var reqs := [RegisterRequest(name, password), ReportRequest(name)];
    assert reqs[1..] == [ReportRequest(name)];
    assert Serve(s1, reqs[1..]).0 == s2;
  }
}
